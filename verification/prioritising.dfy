// The second sort, the priorities it leads to, and what they say about relative deadlines.
module Prioritising {
  import opened Wrappers
  import opened Sequences
  import opened Permutations
  import opened TaskSet
  import opened Deadlines
  import opened Priorities
  import KernelSort

  lemma DeadlineIsPreorder(tasks: seq<Task>, subs: seq<Subtask>, n: nat, cmp: (nat, nat) --> int)
    requires DeadlineReady(tasks, subs, n)
    requires forall a, b :: 0 <= a < n && 0 <= b < n ==>
               cmp.requires(a, b) && cmp(a, b) == ByRelDdl(tasks, subs, n, a, b)
    ensures KernelSort.TotalPreorder(cmp, n)
  {
    hide DeadlineReady, ByRelDdl;
    forall a, b, c | 0 <= a < n && 0 <= b < n && 0 <= c < n
      ensures cmp(a, b) == -cmp(b, a)
      ensures cmp(a, b) <= 0 && cmp(b, c) <= 0 ==> cmp(a, c) <= 0
    {
      RelDdlPreorder(tasks, subs, n, a, b, c);
    }
  }

  ghost predicate SortedByRelDdl(tasks: seq<Task>, subs: seq<Subtask>, n: nat, order: seq<nat>)
    requires DeadlineReady(tasks, subs, n) && KernelSort.Below(order, n)
  {
    forall i, k :: 0 <= i < k < |order| ==> ByRelDdl(tasks, subs, n, order[i], order[k]) <= 0
  }

  method SortByRelDdl(tasks: array<Task>, subs: array<Subtask>, ptr: array<nat>, n: nat)
    requires n <= ptr.Length && DeadlineReady(tasks[..], subs[..], n) && IsPermutation(ptr[..n], n)
    modifies ptr
    ensures IsPermutation(ptr[..n], n) && ptr[n..] == old(ptr[n..])
    ensures KernelSort.Below(ptr[..n], n) && SortedByRelDdl(tasks[..], subs[..], n, ptr[..n])
  {
    hide DeadlineReady, ByRelDdl;
    var ts, ss := tasks[..], subs[..];
    var cmp := (a: nat, b: nat) requires DeadlineReady(ts, ss, n) && a < n && b < n => ByRelDdl(ts, ss, n, a, b);
    PermutationFacts(ptr[..n], n);
    DeadlineIsPreorder(ts, ss, n, cmp);
    KernelSort.Sort(ptr, n, cmp, n);
  }

  // What the priorities promise for two subtasks of one core: no repeats, and while the countdown
  // has not wrapped, a higher priority never has a later relative deadline.
  predicate PriorityPair(tasks: seq<Task>, a: Subtask, b: Subtask)
    requires a.taskId < |tasks| && DeadlineFits(tasks[a.taskId], a)
    requires b.taskId < |tasks| && DeadlineFits(tasks[b.taskId], b)
  {
    a.core == b.core ==>
      && a.priority != b.priority
      && (b.priority < a.priority <= TOP_PRIORITY ==>
            RelativeDeadline(tasks[a.taskId], a) <= RelativeDeadline(tasks[b.taskId], b))
  }

  predicate WellPrioritised(tasks: seq<Task>, subs: seq<Subtask>, n: nat)
    requires DeadlineReady(tasks, subs, n)
  {
    forall p, q :: 0 <= p < n && 0 <= q < n && p != q ==> PriorityPair(tasks, subs[p], subs[q])
  }

  lemma SortedByCore(tasks: seq<Task>, subs: seq<Subtask>, n: nat, order: seq<nat>)
    requires DeadlineReady(tasks, subs, n) && KernelSort.Below(order, n) && SortedByRelDdl(tasks, subs, n, order)
    ensures NonDecreasing(CoresOf(subs, order))
  {
    forall i, k | 0 <= i < k < |order|
      ensures subs[order[i]].core <= subs[order[k]].core
    {
      assert ByRelDdl(tasks, subs, n, order[i], order[k]) <= 0;
    }
  }

  // The comparator's exact order implies the order of the floored deadlines.
  lemma DeadlineOrderIsFloored(l: Subtask, lpa: Task, r: Subtask, rpa: Task)
    requires DeadlineFits(lpa, l) && DeadlineFits(rpa, r) && l.core == r.core
    requires FitsInt64(lpa.period * l.cumulativeExeTime * rpa.exeTime)
    requires FitsInt64(rpa.period * r.cumulativeExeTime * lpa.exeTime)
    requires CompRelDdl(l, lpa, r, rpa) <= 0
    ensures RelativeDeadline(lpa, l) <= RelativeDeadline(rpa, r)
  {
    FloorMonotone(lpa.period * l.cumulativeExeTime, lpa.exeTime, rpa.period * r.cumulativeExeTime, rpa.exeTime);
  }

  // Further along a run the priority is lower, or it has wrapped past zero.
  lemma LaterIsLower(cs: seq<nat>, i: nat, k: nat)
    requires NonDecreasing(cs) && i < k < |cs| < 0x1_0000_0000 && cs[i] == cs[k]
    ensures PriorityAt(cs, k) < PriorityAt(cs, i) || PriorityAt(cs, k) > TOP_PRIORITY
  {
    hide PriorityAt;
    SameRun(cs, RunStart(cs, i), k);
    PriorityValue(cs, i);
    PriorityValue(cs, k);
  }

  // ---------- Priorities by rank ----------

  // Each subtask's priority is 50 less its rank on its core, in 32 bits.
  predicate PrioritiesByRank(subs: seq<Subtask>, order: seq<nat>)
    requires forall i :: 0 <= i < |order| ==> order[i] < |subs|
  {
    forall i :: 0 <= i < |order| ==> subs[order[i]].priority == PriorityAt(CoresOf(subs, order), i)
  }

  // The table as the second sort and the priority loops leave it.
  ghost predicate Prioritised(tasks: seq<Task>, subs: seq<Subtask>, n: nat, order: seq<nat>) {
    && n < 0x1_0000_0000 && DeadlineReady(tasks, subs, n)
    && IsPermutation(order, n) && KernelSort.Below(order, n)
    && SortedByRelDdl(tasks, subs, n, order) && PrioritiesByRank(subs, order)
  }

  // The subtasks of core c.
  function OnCore(subs: seq<Subtask>, n: nat, c: nat): set<nat>
    requires n <= |subs|
  {
    set p | 0 <= p < n && subs[p].core == c
  }

  // On core c a higher priority never has a later relative deadline.
  predicate OrderedOnCore(tasks: seq<Task>, subs: seq<Subtask>, n: nat, c: nat)
    requires DeadlineReady(tasks, subs, n)
  {
    forall p, q :: p in OnCore(subs, n, c) && q in OnCore(subs, n, c) && subs[p].priority > subs[q].priority ==>
      RelativeDeadline(tasks[subs[p].taskId], subs[p]) <= RelativeDeadline(tasks[subs[q].taskId], subs[q])
  }

  predicate OneDeadlineOnCore(tasks: seq<Task>, subs: seq<Subtask>, n: nat, c: nat)
    requires DeadlineReady(tasks, subs, n)
  {
    forall p, q :: p in OnCore(subs, n, c) && q in OnCore(subs, n, c) ==>
      RelativeDeadline(tasks[subs[p].taskId], subs[p]) == RelativeDeadline(tasks[subs[q].taskId], subs[q])
  }

  // A core's run in the sorted order lists exactly that core's subtasks.
  lemma RunLists(subs: seq<Subtask>, n: nat, order: seq<nat>, c: nat, p: nat)
    requires n <= |subs| && IsPermutation(order, n) && KernelSort.Below(order, n) && p < n
    requires NonDecreasing(CoresOf(subs, order))
    ensures var cs := CoresOf(subs, order);
            var start := FirstOf(cs, c);
            var end := if start == |cs| then start else RunEnd(cs, start);
            p in order[start..end] <==> subs[p].core == c
  {
    hide IsPermutation, Distinct, NonDecreasing, FirstOf;
    var cs := CoresOf(subs, order);
    var start := FirstOf(cs, c);
    var end := if start == |cs| then start else RunEnd(cs, start);
    PermutationFacts(order, n);
    var i := PositionOf(order, n, p);
    WalksCoverOnce(cs, c, i);
    if start <= i < end {
      assert order[start..end][i - start] == p;
    }
    if p in order[start..end] {
      var k :| start <= k < end && order[k] == p;
      OnlyOnce(order, i, k);
    }
  }

  lemma RunIsCore(subs: seq<Subtask>, n: nat, order: seq<nat>, start: nat)
    requires n <= |subs| && IsPermutation(order, n) && KernelSort.Below(order, n)
    requires NonDecreasing(CoresOf(subs, order)) && start < |order|
    requires FirstOf(CoresOf(subs, order), subs[order[start]].core) == start
    ensures OnCore(subs, n, subs[order[start]].core)
            == Elements(order[start..RunEnd(CoresOf(subs, order), start)])
  {
    hide IsPermutation, NonDecreasing, FirstOf, CoresOf;
    var c := subs[order[start]].core;
    var run := order[start..RunEnd(CoresOf(subs, order), start)];
    PermutationFacts(order, n);
    forall p: nat
      ensures p in OnCore(subs, n, c) <==> p in run
    {
      if p in run {
        assert p in order;
      }
      if p < n {
        RunLists(subs, n, order, c, p);
      }
    }
  }

  // The size of a core is the length of its run.
  lemma RunSize(subs: seq<Subtask>, n: nat, order: seq<nat>, start: nat)
    requires n <= |subs| && IsPermutation(order, n) && KernelSort.Below(order, n)
    requires NonDecreasing(CoresOf(subs, order)) && start < |order|
    requires FirstOf(CoresOf(subs, order), subs[order[start]].core) == start
    ensures |OnCore(subs, n, subs[order[start]].core)| == RunEnd(CoresOf(subs, order), start) - start
  {
    hide IsPermutation, NonDecreasing, FirstOf, OnCore, Elements;
    PermutationFacts(order, n);
    RunIsCore(subs, n, order, start);
    SizeOfDistinct(order[start..RunEnd(CoresOf(subs, order), start)]);
  }

  lemma SortedDeadlines(tasks: seq<Task>, subs: seq<Subtask>, n: nat, order: seq<nat>, i: nat, k: nat)
    requires Prioritised(tasks, subs, n, order) && i <= k < |order|
    requires subs[order[i]].core == subs[order[k]].core
    ensures RelativeDeadline(tasks[subs[order[i]].taskId], subs[order[i]])
            <= RelativeDeadline(tasks[subs[order[k]].taskId], subs[order[k]])
  {
    hide IsPermutation, PrioritiesByRank, CompRelDdl, RelativeDeadline;
    if i < k {
      assert ByRelDdl(tasks, subs, n, order[i], order[k]) <= 0;
      DeadlineOrderIsFloored(subs[order[i]], tasks[subs[order[i]].taskId],
                             subs[order[k]], tasks[subs[order[k]].taskId]);
    }
  }

  lemma PairAtPositions(tasks: seq<Task>, subs: seq<Subtask>, n: nat, order: seq<nat>, i: nat, k: nat)
    requires Prioritised(tasks, subs, n, order) && i < k < |order|
    ensures PriorityPair(tasks, subs[order[i]], subs[order[k]])
    ensures PriorityPair(tasks, subs[order[k]], subs[order[i]])
  {
    hide IsPermutation, PriorityAt, SortedByRelDdl, NonDecreasing, RelativeDeadline;
    var cs := CoresOf(subs, order);
    SortedByCore(tasks, subs, n, order);
    PermutationFacts(order, n);
    if cs[i] == cs[k] {
      SortedDeadlines(tasks, subs, n, order, i, k);
      PrioritiesDistinct(cs, i, k);
      LaterIsLower(cs, i, k);
    }
  }

  lemma PrioritiesAreWell(tasks: seq<Task>, subs: seq<Subtask>, n: nat, order: seq<nat>)
    requires Prioritised(tasks, subs, n, order)
    ensures WellPrioritised(tasks, subs, n)
  {
    hide PriorityPair, SortedByRelDdl, PrioritiesByRank, IsPermutation;
    PermutationFacts(order, n);
    forall p, q | 0 <= p < n && 0 <= q < n && p != q
      ensures PriorityPair(tasks, subs[p], subs[q])
    {
      var i := PositionOf(order, n, p);
      var k := PositionOf(order, n, q);
      if i < k {
        PairAtPositions(tasks, subs, n, order, i, k);
      } else {
        PairAtPositions(tasks, subs, n, order, k, i);
      }
    }
  }

  // The run of core c: where it starts, where p lies in it, and the priority at each of its ranks.
  lemma RunPriorities(tasks: seq<Task>, subs: seq<Subtask>, n: nat, order: seq<nat>, c: nat, p: nat)
    returns (start: nat, i: nat)
    requires Prioritised(tasks, subs, n, order) && p in OnCore(subs, n, c)
    ensures start == FirstOf(CoresOf(subs, order), c) && start <= i < |order| && order[i] == p
    ensures i - start < |OnCore(subs, n, c)| <= n && start + |OnCore(subs, n, c)| <= |order|
    ensures forall k :: start <= k < start + |OnCore(subs, n, c)| ==>
              order[k] in OnCore(subs, n, c) && subs[order[k]].priority == CountdownFrom(k - start)
  {
    hide IsPermutation, PriorityAt, FirstOf, SortedByRelDdl, NonDecreasing, CountdownFrom;
    var cs := CoresOf(subs, order);
    SortedByCore(tasks, subs, n, order);
    PermutationFacts(order, n);
    i := PositionOf(order, n, p);
    start := FirstOf(cs, c);
    WalksCoverOnce(cs, c, i);
    RunSize(subs, n, order, start);
    forall k | start <= k < RunEnd(cs, start)
      ensures order[k] in OnCore(subs, n, c) && subs[order[k]].priority == CountdownFrom(k - start)
    {
      assert cs[k] == cs[start];
      PriorityAlongWalk(cs, start, k);
    }
  }

  // A core's priorities follow its deadlines exactly when the countdown does not wrap, that is when
  // the core has at most 51 subtasks, or when there is nothing to follow.
  lemma OrderedExactly(tasks: seq<Task>, subs: seq<Subtask>, n: nat, order: seq<nat>, c: nat)
    requires Prioritised(tasks, subs, n, order)
    ensures OrderedOnCore(tasks, subs, n, c)
            <==> |OnCore(subs, n, c)| <= TOP_PRIORITY + 1 || OneDeadlineOnCore(tasks, subs, n, c)
  {
    if |OnCore(subs, n, c)| <= TOP_PRIORITY + 1 {
      SmallCoreIsOrdered(tasks, subs, n, order, c);
    } else if OrderedOnCore(tasks, subs, n, c) {
      LargeCoreHasOneDeadline(tasks, subs, n, order, c);
    }
  }

  // The deadline of p, before rounding, is no later than q's: their fractions, cross-multiplied.
  predicate NoLater(tasks: seq<Task>, subs: seq<Subtask>, p: nat, q: nat)
    requires p < |subs| && subs[p].taskId < |tasks| && q < |subs| && subs[q].taskId < |tasks|
  {
    var s, t := subs[p], subs[q];
    tasks[s.taskId].period * s.cumulativeExeTime * tasks[t.taskId].exeTime
    <= tasks[t.taskId].period * t.cumulativeExeTime * tasks[s.taskId].exeTime
  }

  lemma NoLaterTransitive(tasks: seq<Task>, subs: seq<Subtask>, n: nat, p: nat, q: nat, r: nat)
    requires DeadlineReady(tasks, subs, n) && p < n && q < n && r < n
    requires NoLater(tasks, subs, p, q) && NoLater(tasks, subs, q, r)
    ensures NoLater(tasks, subs, p, r)
  {
    var s, t, u := subs[p], subs[q], subs[r];
    FractionTransitive(tasks[s.taskId].period * s.cumulativeExeTime, tasks[s.taskId].exeTime,
                       tasks[t.taskId].period * t.cumulativeExeTime, tasks[t.taskId].exeTime,
                       tasks[u.taskId].period * u.cumulativeExeTime, tasks[u.taskId].exeTime);
  }

  // On core c a higher priority never has a later deadline, not even before rounding.
  predicate ExactOnCore(tasks: seq<Task>, subs: seq<Subtask>, n: nat, c: nat)
    requires DeadlineReady(tasks, subs, n)
  {
    forall p, q :: p in OnCore(subs, n, c) && q in OnCore(subs, n, c) && subs[p].priority > subs[q].priority ==>
      NoLater(tasks, subs, p, q)
  }

  predicate OneExactDeadlineOnCore(tasks: seq<Task>, subs: seq<Subtask>, n: nat, c: nat)
    requires DeadlineReady(tasks, subs, n)
  {
    forall p, q :: p in OnCore(subs, n, c) && q in OnCore(subs, n, c) ==> NoLater(tasks, subs, p, q)
  }

  lemma SortedExactly(tasks: seq<Task>, subs: seq<Subtask>, n: nat, order: seq<nat>, i: nat, k: nat)
    requires Prioritised(tasks, subs, n, order) && i <= k < |order|
    requires subs[order[i]].core == subs[order[k]].core
    ensures NoLater(tasks, subs, order[i], order[k])
  {
    hide IsPermutation, PrioritiesByRank;
    if i < k {
      assert ByRelDdl(tasks, subs, n, order[i], order[k]) <= 0;
    }
  }

  // The same for the deadlines before rounding: the priorities follow them exactly when the core has
  // at most 51 subtasks, or when they are all one.
  lemma ExactlyOrdered(tasks: seq<Task>, subs: seq<Subtask>, n: nat, order: seq<nat>, c: nat)
    requires Prioritised(tasks, subs, n, order)
    ensures ExactOnCore(tasks, subs, n, c)
            <==> |OnCore(subs, n, c)| <= TOP_PRIORITY + 1 || OneExactDeadlineOnCore(tasks, subs, n, c)
  {
    if |OnCore(subs, n, c)| <= TOP_PRIORITY + 1 {
      SmallCoreIsExact(tasks, subs, n, order, c);
    } else if ExactOnCore(tasks, subs, n, c) {
      LargeCoreHasOneExact(tasks, subs, n, order, c);
    }
  }

  lemma SmallCoreIsExact(tasks: seq<Task>, subs: seq<Subtask>, n: nat, order: seq<nat>, c: nat)
    requires Prioritised(tasks, subs, n, order) && |OnCore(subs, n, c)| <= TOP_PRIORITY + 1
    ensures ExactOnCore(tasks, subs, n, c)
  {
    hide Prioritised, NoLater, FirstOf;
    ReadyWhenPrioritised(tasks, subs, n, order);
    forall p, q | p in OnCore(subs, n, c) && q in OnCore(subs, n, c) && subs[p].priority > subs[q].priority
      ensures NoLater(tasks, subs, p, q)
    {
      var start, i := RunPriorities(tasks, subs, n, order, c, p);
      var start', k := RunPriorities(tasks, subs, n, order, c, q);
      SortedExactly(tasks, subs, n, order, i, k);
    }
  }

  lemma LargeCoreHasOneExact(tasks: seq<Task>, subs: seq<Subtask>, n: nat, order: seq<nat>, c: nat)
    requires Prioritised(tasks, subs, n, order) && |OnCore(subs, n, c)| > TOP_PRIORITY + 1
    requires ExactOnCore(tasks, subs, n, c)
    ensures OneExactDeadlineOnCore(tasks, subs, n, c)
  {
    hide Prioritised, NoLater, FirstOf;
    ReadyWhenPrioritised(tasks, subs, n, order);
    forall p, q | p in OnCore(subs, n, c) && q in OnCore(subs, n, c)
      ensures NoLater(tasks, subs, p, q)
    {
      var start, i := RunPriorities(tasks, subs, n, order, c, p);
      var start', k := RunPriorities(tasks, subs, n, order, c, q);
      var last := start + |OnCore(subs, n, c)| - 1;
      SortedExactly(tasks, subs, n, order, i, last);
      SortedExactly(tasks, subs, n, order, start, k);
      assert subs[order[last]].priority > subs[order[start]].priority;
      NoLaterTransitive(tasks, subs, n, p, order[last], order[start]);
      NoLaterTransitive(tasks, subs, n, p, order[start], q);
    }
  }

  // One task of 52 subtasks with deadlines 1, 2, ..., 52, all on core 0.
  function LongChain(): (subs: seq<Subtask>)
    ensures |subs| == 52
  {
    seq(52, i requires 0 <= i < 52 => Subtask(0, i, 1, 0, i + 1, 0, CountdownFrom(i)))
  }

  lemma LongChainCountsDown()
    ensures PrioritiesByRank(LongChain(), Identity(52))
  {
    hide PriorityAt, CountdownFrom;
    var cs := CoresOf(LongChain(), Identity(52));
    forall i | 0 <= i < 52
      ensures LongChain()[i].priority == PriorityAt(cs, i)
    {
      SameRun(cs, 0, i);
      PriorityInRun(cs, i, i);
    }
  }

  lemma LongChainIsSorted()
    ensures DeadlineReady([Task(52, 52, 0, 52)], LongChain(), 52)
    ensures SortedByRelDdl([Task(52, 52, 0, 52)], LongChain(), 52, Identity(52))
  {
    assert forall i :: 0 <= i < 52 ==> LongChain()[i].cumulativeExeTime == i + 1;
  }

  // The 52nd subtask has the latest deadline and the highest priority.
  lemma LatestDeadlineComesFirst()
    ensures Prioritised([Task(52, 52, 0, 52)], LongChain(), 52, Identity(52))
    ensures !OrderedOnCore([Task(52, 52, 0, 52)], LongChain(), 52, 0)
  {
    hide IsPermutation, PrioritiesByRank, SortedByRelDdl;
    var tasks, subs, order := [Task(52, 52, 0, 52)], LongChain(), Identity(52);
    IdentityIsPermutation(order, 52);
    LongChainCountsDown();
    LongChainIsSorted();
    assert 0 in OnCore(subs, 52, 0) && 51 in OnCore(subs, 52, 0);
    assert RelativeDeadline(tasks[0], subs[51]) == 52 && RelativeDeadline(tasks[0], subs[0]) == 1;
  }

  lemma SmallCoreIsOrdered(tasks: seq<Task>, subs: seq<Subtask>, n: nat, order: seq<nat>, c: nat)
    requires Prioritised(tasks, subs, n, order) && |OnCore(subs, n, c)| <= TOP_PRIORITY + 1
    ensures OrderedOnCore(tasks, subs, n, c)
  {
    hide Prioritised, RelativeDeadline, FirstOf;
    ReadyWhenPrioritised(tasks, subs, n, order);
    forall p, q | p in OnCore(subs, n, c) && q in OnCore(subs, n, c) && subs[p].priority > subs[q].priority
      ensures RelativeDeadline(tasks[subs[p].taskId], subs[p]) <= RelativeDeadline(tasks[subs[q].taskId], subs[q])
    {
      var start, i := RunPriorities(tasks, subs, n, order, c, p);
      var start', k := RunPriorities(tasks, subs, n, order, c, q);
      SortedDeadlines(tasks, subs, n, order, i, k);
    }
  }

  lemma LargeCoreHasOneDeadline(tasks: seq<Task>, subs: seq<Subtask>, n: nat, order: seq<nat>, c: nat)
    requires Prioritised(tasks, subs, n, order) && |OnCore(subs, n, c)| > TOP_PRIORITY + 1
    requires OrderedOnCore(tasks, subs, n, c)
    ensures OneDeadlineOnCore(tasks, subs, n, c)
  {
    hide Prioritised, RelativeDeadline, FirstOf;
    ReadyWhenPrioritised(tasks, subs, n, order);
    forall p, q | p in OnCore(subs, n, c) && q in OnCore(subs, n, c)
      ensures RelativeDeadline(tasks[subs[p].taskId], subs[p]) <= RelativeDeadline(tasks[subs[q].taskId], subs[q])
    {
      var start, i := RunPriorities(tasks, subs, n, order, c, p);
      var start', k := RunPriorities(tasks, subs, n, order, c, q);
      var last := start + |OnCore(subs, n, c)| - 1;
      SortedDeadlines(tasks, subs, n, order, i, last);
      SortedDeadlines(tasks, subs, n, order, start, k);
      assert subs[order[last]].priority > subs[order[start]].priority;
    }
  }

  lemma ReadyWhenPrioritised(tasks: seq<Task>, subs: seq<Subtask>, n: nat, order: seq<nat>)
    requires Prioritised(tasks, subs, n, order)
    ensures DeadlineReady(tasks, subs, n) && n < 0x1_0000_0000 && |order| == n
    ensures forall i :: 0 <= i < n ==> order[i] < n
  {
    PermutationFacts(order, n);
  }

  // Two subtask tables that agree on what the priorities promise about.
  predicate SameDeadlines(subsA: seq<Subtask>, subsB: seq<Subtask>, n: nat) {
    && n <= |subsA| && n <= |subsB|
    && forall p :: 0 <= p < n ==>
         && subsA[p].taskId == subsB[p].taskId && subsA[p].cumulativeExeTime == subsB[p].cumulativeExeTime
  }

  lemma DeadlineReadySame(tasks: seq<Task>, subsA: seq<Subtask>, subsB: seq<Subtask>, n: nat)
    requires SameDeadlines(subsA, subsB, n) && DeadlineReady(tasks, subsA, n)
    ensures DeadlineReady(tasks, subsB, n)
  {
  }

  lemma SortedSame(tasks: seq<Task>, subsA: seq<Subtask>, subsB: seq<Subtask>, n: nat, order: seq<nat>)
    requires SameDeadlines(subsA, subsB, n) && forall p :: 0 <= p < n ==> subsA[p].core == subsB[p].core
    requires DeadlineReady(tasks, subsA, n) && KernelSort.Below(order, n) && SortedByRelDdl(tasks, subsA, n, order)
    ensures DeadlineReady(tasks, subsB, n) && SortedByRelDdl(tasks, subsB, n, order)
    ensures CoresOf(subsA, order) == CoresOf(subsB, order)
  {
    hide CompRelDdl;
    DeadlineReadySame(tasks, subsA, subsB, n);
    forall i, k | 0 <= i < k < |order|
      ensures ByRelDdl(tasks, subsB, n, order[i], order[k]) <= 0
    {
      assert ByRelDdl(tasks, subsA, n, order[i], order[k]) <= 0;
      SameComparison(tasks, subsA, subsB, n, order[i], order[k]);
    }
  }

  lemma SameComparison(tasks: seq<Task>, subsA: seq<Subtask>, subsB: seq<Subtask>, n: nat, p: nat, q: nat)
    requires SameDeadlines(subsA, subsB, n) && p < n && q < n
    requires subsA[p].core == subsB[p].core && subsA[q].core == subsB[q].core
    requires DeadlineReady(tasks, subsA, n) && DeadlineReady(tasks, subsB, n)
    ensures ByRelDdl(tasks, subsA, n, p, q) == ByRelDdl(tasks, subsB, n, p, q)
  {
  }

  lemma PrioritisedSame(tasks: seq<Task>, subsA: seq<Subtask>, subsB: seq<Subtask>, n: nat, order: seq<nat>)
    requires SameDeadlines(subsA, subsB, n)
    requires forall p :: 0 <= p < n ==> subsA[p].core == subsB[p].core && subsA[p].priority == subsB[p].priority
    requires Prioritised(tasks, subsA, n, order)
    ensures Prioritised(tasks, subsB, n, order)
  {
    hide DeadlineReady, SortedByRelDdl, IsPermutation, PriorityAt;
    SortedSame(tasks, subsA, subsB, n, order);
  }

  lemma BecomesPrioritised(tasks: seq<Task>, before: seq<Subtask>, after: seq<Subtask>, n: nat, order: seq<nat>)
    requires SameDeadlines(before, after, n) && forall p :: 0 <= p < n ==> before[p].core == after[p].core
    requires DeadlineReady(tasks, before, n) && n < 0x1_0000_0000
    requires IsPermutation(order, n) && KernelSort.Below(order, n)
    requires SortedByRelDdl(tasks, before, n, order) && PrioritiesWritten(before, after, order, |order|)
    ensures Prioritised(tasks, after, n, order)
  {
    hide DeadlineReady, SortedByRelDdl, IsPermutation, PriorityAt;
    SortedSame(tasks, before, after, n, order);
  }

  // On each core the priorities follow the deadlines, rounded or not, exactly when the core is small
  // enough or all these deadlines are one.
  ghost predicate OrderedWhereSmall(tasks: seq<Task>, subs: seq<Subtask>, n: nat)
    requires DeadlineReady(tasks, subs, n)
  {
    && (forall c :: OrderedOnCore(tasks, subs, n, c)
                    <==> |OnCore(subs, n, c)| <= TOP_PRIORITY + 1 || OneDeadlineOnCore(tasks, subs, n, c))
    && (forall c :: ExactOnCore(tasks, subs, n, c)
                    <==> |OnCore(subs, n, c)| <= TOP_PRIORITY + 1 || OneExactDeadlineOnCore(tasks, subs, n, c))
  }

  lemma PrioritiesMean(tasks: seq<Task>, subs: seq<Subtask>, n: nat, order: seq<nat>)
    requires Prioritised(tasks, subs, n, order)
    ensures WellPrioritised(tasks, subs, n) && OrderedWhereSmall(tasks, subs, n)
  {
    hide WellPrioritised, OrderedOnCore, OneDeadlineOnCore, ExactOnCore, OneExactDeadlineOnCore, Prioritised;
    ReadyWhenPrioritised(tasks, subs, n, order);
    PrioritiesAreWell(tasks, subs, n, order);
    forall c
      ensures OrderedOnCore(tasks, subs, n, c)
              <==> |OnCore(subs, n, c)| <= TOP_PRIORITY + 1 || OneDeadlineOnCore(tasks, subs, n, c)
    {
      OrderedExactly(tasks, subs, n, order, c);
    }
    forall c
      ensures ExactOnCore(tasks, subs, n, c)
              <==> |OnCore(subs, n, c)| <= TOP_PRIORITY + 1 || OneExactDeadlineOnCore(tasks, subs, n, c)
    {
      ExactlyOrdered(tasks, subs, n, order, c);
    }
  }

  // The second sort and the priority loops.
  method PrioritiseAll(tasks: array<Task>, subs: array<Subtask>, ptr: array<nat>, n: nat, cores: nat)
    returns (startAddr: array<Option<nat>>)
    requires n <= ptr.Length && IsPermutation(ptr[..n], n) && n < 0x1_0000_0000
    requires DeadlineReady(tasks[..], subs[..], n)
    requires forall p :: 0 <= p < n ==> subs[p].core < cores
    modifies subs, ptr
    ensures IsPermutation(ptr[..n], n) && ptr[n..] == old(ptr[n..]) && KernelSort.Below(ptr[..n], n)
    ensures forall p :: 0 <= p < n ==> subs[p] == old(subs[p]).(priority := subs[p].priority)
    ensures subs[n..] == old(subs[n..])
    ensures Prioritised(tasks[..], subs[..], n, ptr[..n]) && DeadlineReady(tasks[..], subs[..], n)
    ensures WellPrioritised(tasks[..], subs[..], n) && OrderedWhereSmall(tasks[..], subs[..], n)
    ensures NonDecreasing(CoresOf(subs[..], ptr[..n]))
    ensures startAddr.Length == cores && fresh(startAddr)
    ensures forall c :: 0 <= c < cores ==> startAddr[c] == Some(FirstOf(CoresOf(subs[..], ptr[..n]), c))
  {
    hide SortedByRelDdl, WellPrioritised, OrderedWhereSmall, Prioritised,
         IsPermutation, FirstOf, PriorityAt, NonDecreasing;
    SortByRelDdl(tasks, subs, ptr, n);
    ghost var before := subs[..];
    var order := ptr[..n];
    PermutationFacts(order, n);
    SortedByCore(tasks[..], before, n, order);
    startAddr := AssignPriorities(subs, order, cores);
    forall p | 0 <= p < n
      ensures subs[p] == before[p].(priority := subs[p].priority)
    {
      var i := PositionOf(order, n, p);
    }
    assert CoresOf(before, order) == CoresOf(subs[..], order);
    BecomesPrioritised(tasks[..], before, subs[..], n, order);
    ReadyWhenPrioritised(tasks[..], subs[..], n, order);
    PrioritiesMean(tasks[..], subs[..], n, order);
  }
}
