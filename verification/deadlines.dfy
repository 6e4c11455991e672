// Cumulative execution times and the relative deadlines they give.
module Deadlines {
  import opened Words
  import opened TaskSet

  // The execution time of the first k subtasks of the run that begins at start.
  function ExeSum(subs: seq<Subtask>, start: nat, k: nat): nat
    requires start + k <= |subs|
  {
    if k == 0 then 0 else ExeSum(subs, start, k - 1) + subs[start + k - 1].exeTime
  }

  lemma {:induction false} ExeSumMonotone(subs: seq<Subtask>, start: nat, j: nat, k: nat)
    requires j <= k && start + k <= |subs|
    ensures ExeSum(subs, start, j) <= ExeSum(subs, start, k)
    ensures (forall p :: start <= p < start + k ==> subs[p].exeTime > 0) && j < k ==>
              ExeSum(subs, start, j) < ExeSum(subs, start, k)
    decreases k
  {
    if j < k {
      ExeSumMonotone(subs, start, j, k - 1);
    }
  }

  lemma {:induction false} ExeSumSame(a: seq<Subtask>, b: seq<Subtask>, start: nat, k: nat)
    requires |a| == |b| && start + k <= |a|
    requires forall p :: start <= p < start + k ==> a[p].exeTime == b[p].exeTime
    ensures ExeSum(a, start, k) == ExeSum(b, start, k)
  {
    if k > 0 {
      ExeSumSame(a, b, start, k - 1);
    }
  }

  // The total execution time of a task.
  function TaskTime(tasks: seq<Task>, subs: seq<Subtask>, n: nat, i: nat): nat
    requires i < |tasks| && n <= |subs| && TaskFits(tasks, subs, n, i)
  {
    ExeSum(subs, tasks[i].subtaskStartIdx, tasks[i].subtaskCount)
  }

  // The execution time of a subtask and its predecessors.
  function CumulativeTime(tasks: seq<Task>, subs: seq<Subtask>, p: nat): (c: nat)
    requires p < |subs| && SubtaskFits(tasks, subs, p)
  {
    ExeSum(subs, tasks[subs[p].taskId].subtaskStartIdx, subs[p].subtaskId + 1)
  }

  predicate SumsFit(tasks: seq<Task>, subs: seq<Subtask>, n: nat)
    requires Layout(tasks, subs, n)
  {
    forall i :: 0 <= i < |tasks| ==> TaskTime(tasks, subs, n, i) < 0x1_0000_0000
  }

  predicate IsMaxPeriod(tasks: seq<Task>, period: nat) {
    && (forall i :: 0 <= i < |tasks| ==> tasks[i].period <= period)
    && (if tasks == [] then period == 0 else exists i :: 0 <= i < |tasks| && tasks[i].period == period)
  }

  // Position p after the first j subtasks of the run at start have their prefix sums.
  function Summed(subs: seq<Subtask>, start: nat, j: nat, p: nat): Subtask
    requires p < |subs| && start + j <= |subs|
  {
    if start <= p < start + j then subs[p].(cumulativeExeTime := ExeSum(subs, start, p - start + 1)) else subs[p]
  }

  function WithTotal(t: Task, total: nat): Task {
    if t.subtaskCount > 0 then t.(exeTime := total) else t
  }

  // The inner loop: prefix sums over the subtasks of task i.
  method AccumulateTask(tasks: array<Task>, subs: array<Subtask>, i: nat)
    requires i < tasks.Length && tasks[i].subtaskStartIdx + tasks[i].subtaskCount <= subs.Length
    requires ExeSum(subs[..], tasks[i].subtaskStartIdx, tasks[i].subtaskCount) < 0x1_0000_0000
    modifies tasks, subs
    ensures var t := old(tasks[i]);
            && tasks[..] == old(tasks[..])[i :=
                 WithTotal(t, ExeSum(old(subs[..]), t.subtaskStartIdx, t.subtaskCount))]
            && forall p :: 0 <= p < subs.Length ==>
                 subs[p] == Summed(old(subs[..]), t.subtaskStartIdx, t.subtaskCount, p)
    ensures RunAddsUp(tasks[i], subs[..])
  {
    ghost var before := subs[..];
    var start, count := tasks[i].subtaskStartIdx, tasks[i].subtaskCount;
    for j := 0 to count
      invariant tasks[..] == if count > 0 && j == count
                             then old(tasks[..])[i := WithTotal(old(tasks[i]), ExeSum(before, start, count))]
                             else old(tasks[..])
      invariant forall p :: 0 <= p < subs.Length ==> subs[p] == Summed(before, start, j, p)
    {
      var curIdx := start + j;
      ExeSumMonotone(before, start, j + 1, count);
      assert j > 0 ==> subs[curIdx - 1] == Summed(before, start, j, curIdx - 1);
      var soFar: uint32 := (if j == 0 then 0 else subs[curIdx - 1].cumulativeExeTime) + subs[curIdx].exeTime;
      subs[curIdx] := subs[curIdx].(cumulativeExeTime := soFar);
      if j == count - 1 {
        tasks[i] := tasks[i].(exeTime := subs[curIdx].cumulativeExeTime);
      }
    }
    SummedAddsUp(before, old(tasks[i]), tasks[i], subs[..]);
  }

  // The run of a task: each cumulative time adds its subtask's own to the one before.
  predicate RunAddsUp(t: Task, subs: seq<Subtask>) {
    && t.subtaskStartIdx + t.subtaskCount <= |subs|
    && (t.subtaskCount > 0 ==>
          && subs[t.subtaskStartIdx].cumulativeExeTime == subs[t.subtaskStartIdx].exeTime
          && t.exeTime == subs[t.subtaskStartIdx + t.subtaskCount - 1].cumulativeExeTime)
    && (forall p :: t.subtaskStartIdx < p < t.subtaskStartIdx + t.subtaskCount ==>
          subs[p].cumulativeExeTime == subs[p - 1].cumulativeExeTime + subs[p].exeTime)
  }

  lemma SummedAddsUp(before: seq<Subtask>, t: Task, after: Task, subs: seq<Subtask>)
    requires t.subtaskStartIdx + t.subtaskCount <= |before| == |subs|
    requires after == WithTotal(t, ExeSum(before, t.subtaskStartIdx, t.subtaskCount))
    requires forall p :: 0 <= p < |subs| ==> subs[p] == Summed(before, t.subtaskStartIdx, t.subtaskCount, p)
    ensures RunAddsUp(after, subs)
  {
    hide ExeSum;
    var start, count := after.subtaskStartIdx, after.subtaskCount;
    if count > 0 {
      var last := start + count - 1;
      SumNext(before, start, 0);
      assert subs[start] == Summed(before, start, count, start);
      assert subs[last] == Summed(before, start, count, last);
      assert last - start + 1 == count;
    }
    forall p | start < p < start + count
      ensures subs[p].cumulativeExeTime == subs[p - 1].cumulativeExeTime + subs[p].exeTime
    {
      SumNext(before, start, p - start);
      assert subs[p] == Summed(before, start, count, p);
      assert subs[p - 1] == Summed(before, start, count, p - 1);
    }
  }

  // The tables after the first k tasks have been accumulated.
  predicate AccumulatedUpTo(tasks: seq<Task>, subs: seq<Subtask>, n: nat, k: nat,
                            after: seq<Task>, subsAfter: seq<Subtask>)
    requires Layout(tasks, subs, n)
  {
    && |after| == |tasks| && |subsAfter| == |subs|
    && (forall i :: 0 <= i < |tasks| ==>
          after[i] == (if i < k then WithTotal(tasks[i], TaskTime(tasks, subs, n, i)) else tasks[i]))
    && (forall p :: 0 <= p < n ==>
          assert SubtaskFits(tasks, subs, p);
          subsAfter[p] == (if subs[p].taskId < k
                           then subs[p].(cumulativeExeTime := CumulativeTime(tasks, subs, p))
                           else subs[p]))
    && (forall p :: n <= p < |subs| ==> subsAfter[p] == subs[p])
  }

  // The cumulative time of a first subtask is its own execution time, that of any other adds its own
  // to its predecessor's, and that of the last is the total of the task.
  predicate AddsUp(tasks: seq<Task>, subs: seq<Subtask>, p: nat)
    requires p < |subs|
  {
    var s := subs[p];
    && s.taskId < |tasks|
    && (if s.subtaskId == 0 then s.cumulativeExeTime == s.exeTime
        else && p > 0 && subs[p - 1].taskId == s.taskId
             && s.cumulativeExeTime == subs[p - 1].cumulativeExeTime + s.exeTime)
    && (s.subtaskId == tasks[s.taskId].subtaskCount - 1 ==> tasks[s.taskId].exeTime == s.cumulativeExeTime)
  }

  predicate SumsAlongTasks(tasks: seq<Task>, subs: seq<Subtask>, n: nat) {
    n <= |subs| && forall p :: 0 <= p < n ==> AddsUp(tasks, subs, p)
  }

  lemma CumulativeAddsUp(tasks: seq<Task>, subs: seq<Subtask>, n: nat, p: nat)
    requires Layout(tasks, subs, n) && p < n
    ensures SubtaskFits(tasks, subs, p) && TaskFits(tasks, subs, n, subs[p].taskId)
    ensures subs[p].subtaskId == 0 ==> CumulativeTime(tasks, subs, p) == subs[p].exeTime
    ensures subs[p].subtaskId > 0 ==>
              (&& p > 0 && subs[p - 1].taskId == subs[p].taskId && SubtaskFits(tasks, subs, p - 1)
               && CumulativeTime(tasks, subs, p) == CumulativeTime(tasks, subs, p - 1) + subs[p].exeTime)
    ensures subs[p].subtaskId == tasks[subs[p].taskId].subtaskCount - 1 ==>
              TaskTime(tasks, subs, n, subs[p].taskId) == CumulativeTime(tasks, subs, p)
  {
    assert SubtaskFits(tasks, subs, p);
    assert TaskFits(tasks, subs, n, subs[p].taskId);
    SumNext(subs, tasks[subs[p].taskId].subtaskStartIdx, subs[p].subtaskId);
    if subs[p].subtaskId > 0 {
      assert SubtaskFits(tasks, subs, p - 1);
    }
  }

  lemma SumNext(subs: seq<Subtask>, start: nat, k: nat)
    requires start + k < |subs|
    ensures ExeSum(subs, start, k + 1) == ExeSum(subs, start, k) + subs[start + k].exeTime
    ensures ExeSum(subs, start, 0) == 0
  {
  }

  lemma AccumulatedAddsUp(tasks: seq<Task>, subs: seq<Subtask>, n: nat, after: seq<Task>, subsAfter: seq<Subtask>,
                          p: nat)
    requires Layout(tasks, subs, n) && AccumulatedUpTo(tasks, subs, n, |tasks|, after, subsAfter) && p < n
    ensures |subsAfter| == |subs| && AddsUp(after, subsAfter, p)
  {
    hide CumulativeTime, TaskTime;
    CumulativeAddsUp(tasks, subs, n, p);
    var i := subs[p].taskId;
    assert subsAfter[p] == subs[p].(cumulativeExeTime := CumulativeTime(tasks, subs, p));
    assert after[i] == WithTotal(tasks[i], TaskTime(tasks, subs, n, i));
    if subs[p].subtaskId > 0 {
      assert subsAfter[p - 1] == subs[p - 1].(cumulativeExeTime := CumulativeTime(tasks, subs, p - 1));
    }
  }

  lemma AccumulatedSums(tasks: seq<Task>, subs: seq<Subtask>, n: nat, after: seq<Task>, subsAfter: seq<Subtask>)
    requires Layout(tasks, subs, n) && AccumulatedUpTo(tasks, subs, n, |tasks|, after, subsAfter)
    ensures SumsAlongTasks(after, subsAfter, n)
  {
    hide AddsUp, AccumulatedUpTo;
    AccumulatedSize(tasks, subs, n, after, subsAfter);
    forall p | 0 <= p < n
      ensures AddsUp(after, subsAfter, p)
    {
      AccumulatedAddsUp(tasks, subs, n, after, subsAfter, p);
    }
  }

  lemma AccumulatedSize(tasks: seq<Task>, subs: seq<Subtask>, n: nat, after: seq<Task>, subsAfter: seq<Subtask>)
    requires Layout(tasks, subs, n) && AccumulatedUpTo(tasks, subs, n, |tasks|, after, subsAfter)
    ensures |after| == |tasks| && |subsAfter| == |subs|
  {
  }

  lemma AccumulateNext(tasks: seq<Task>, subs: seq<Subtask>, n: nat, k: nat,
                       mid: seq<Task>, subsMid: seq<Subtask>, after: seq<Task>, subsAfter: seq<Subtask>)
    requires Layout(tasks, subs, n) && k < |tasks| && TaskFits(tasks, subs, n, k)
    requires AccumulatedUpTo(tasks, subs, n, k, mid, subsMid)
    requires after == mid[k := WithTotal(mid[k], ExeSum(subsMid, tasks[k].subtaskStartIdx, tasks[k].subtaskCount))]
    requires |subsAfter| == |subs|
    requires forall p :: 0 <= p < |subs| ==>
               subsAfter[p] == Summed(subsMid, tasks[k].subtaskStartIdx, tasks[k].subtaskCount, p)
    ensures AccumulatedUpTo(tasks, subs, n, k + 1, after, subsAfter)
  {
    var start, count := tasks[k].subtaskStartIdx, tasks[k].subtaskCount;
    ExeSumSame(subs, subsMid, start, count);
    forall p | 0 <= p < n
      ensures assert SubtaskFits(tasks, subs, p);
              subsAfter[p] == (if subs[p].taskId < k + 1
                               then subs[p].(cumulativeExeTime := CumulativeTime(tasks, subs, p))
                               else subs[p])
    {
      SummedOfTask(tasks, subs, n, k, subsMid, p);
    }
  }

  // Only the subtasks of task k are touched in its turn, and each gets its own prefix sum.
  lemma SummedOfTask(tasks: seq<Task>, subs: seq<Subtask>, n: nat, k: nat, subsMid: seq<Subtask>, p: nat)
    requires Layout(tasks, subs, n) && k < |tasks| && TaskFits(tasks, subs, n, k)
    requires |subsMid| == |subs| && p < n && SubtaskFits(tasks, subs, p)
    requires forall r :: 0 <= r < n ==> subsMid[r].exeTime == subs[r].exeTime
    requires subsMid[p] == (if subs[p].taskId < k
                            then subs[p].(cumulativeExeTime := CumulativeTime(tasks, subs, p))
                            else subs[p])
    ensures Summed(subsMid, tasks[k].subtaskStartIdx, tasks[k].subtaskCount, p)
            == (if subs[p].taskId < k + 1
                then subs[p].(cumulativeExeTime := CumulativeTime(tasks, subs, p))
                else subs[p])
  {
    hide ExeSum;
    if subs[p].taskId == k {
      ExeSumSame(subs, subsMid, tasks[k].subtaskStartIdx, subs[p].subtaskId + 1);
    }
  }

  // The first loop of the initialisation.
  method Accumulate(tasks: array<Task>, subs: array<Subtask>, ghost n: nat) returns (hyperPeriod: nat)
    requires Layout(tasks[..], subs[..], n) && SumsFit(tasks[..], subs[..], n)
    modifies tasks, subs
    ensures IsMaxPeriod(old(tasks[..]), hyperPeriod)
    ensures AccumulatedUpTo(old(tasks[..]), old(subs[..]), n, tasks.Length, tasks[..], subs[..])
    ensures SumsAlongTasks(tasks[..], subs[..], n)
  {
    hide Summed, WithTotal, ExeSum;
    ghost var tasks0, subs0 := tasks[..], subs[..];
    hyperPeriod := 0;
    for i := 0 to tasks.Length
      invariant IsMaxPeriod(tasks0[..i], hyperPeriod)
      invariant AccumulatedUpTo(tasks0, subs0, n, i, tasks[..], subs[..])
    {
      ghost var tasksMid, subsMid := tasks[..], subs[..];
      assert TaskFits(tasks0, subs0, n, i);
      if tasks[i].period > hyperPeriod {
        hyperPeriod := tasks[i].period;
      }
      assert tasks0[..i + 1][i].period <= hyperPeriod;
      assert TaskTime(tasks0, subs0, n, i) < 0x1_0000_0000;
      ExeSumSame(subs0, subsMid, tasks0[i].subtaskStartIdx, tasks0[i].subtaskCount);
      AccumulateTask(tasks, subs, i);
      AccumulateNext(tasks0, subs0, n, i, tasksMid, subsMid, tasks[..], subs[..]);
    }
    assert tasks0[..tasks.Length] == tasks0;
    AccumulatedSums(tasks0, subs0, n, tasks[..], subs[..]);
  }

  // ---------- Relative deadlines ----------

  function WholePart(w: nat, d: nat): (q: nat)
    requires d > 0
    ensures q * d <= w < (q + 1) * d
  {
    assert w == d * (w / d) + w % d;
    w / d
  }

  // The relative deadline as run mode computes it: the whole milliseconds of its share of the period.
  function RelativeDeadline(t: Task, s: Subtask): (d: nat)
    requires DeadlineFits(t, s)
    ensures d * t.exeTime <= t.period * s.cumulativeExeTime < (d + 1) * t.exeTime
  {
    var product: uint32 := t.period * s.cumulativeExeTime;
    WholePart(product, t.exeTime)
  }

  lemma CumulativesAlongTask(tasks: seq<Task>, subs: seq<Subtask>, n: nat, p: nat, q: nat)
    requires Layout(tasks, subs, n) && p <= q < n && subs[p].taskId == subs[q].taskId
    requires SubtaskFits(tasks, subs, p) && SubtaskFits(tasks, subs, q)
    requires TaskFits(tasks, subs, n, subs[p].taskId)
    ensures var total := TaskTime(tasks, subs, n, subs[p].taskId);
            && 0 < CumulativeTime(tasks, subs, p) <= CumulativeTime(tasks, subs, q) <= total
            && (subs[q].subtaskId == tasks[subs[p].taskId].subtaskCount - 1 ==>
                  CumulativeTime(tasks, subs, q) == total)
  {
    var t := tasks[subs[p].taskId];
    var start, count := t.subtaskStartIdx, t.subtaskCount;
    forall r | start <= r < start + count
      ensures subs[r].exeTime > 0
    {
      assert SubtaskFits(tasks, subs, r);
    }
    ExeSumMonotone(subs, start, 0, subs[p].subtaskId + 1);
    ExeSumMonotone(subs, start, subs[p].subtaskId + 1, subs[q].subtaskId + 1);
    ExeSumMonotone(subs, start, subs[q].subtaskId + 1, count);
  }

  // Along a task the deadlines do not decrease, and the last one is the period.
  lemma DeadlinesAlongTask(tasks: seq<Task>, subs: seq<Subtask>, n: nat,
                           after: seq<Task>, subsAfter: seq<Subtask>, p: nat, q: nat)
    requires Layout(tasks, subs, n) && AccumulatedUpTo(tasks, subs, n, |tasks|, after, subsAfter)
    requires p <= q < n && subs[p].taskId == subs[q].taskId
    requires PeriodsFit(tasks, subs, n)
    ensures subsAfter[p].taskId < |after| && subsAfter[q].taskId == subsAfter[p].taskId
    ensures DeadlineFits(after[subsAfter[p].taskId], subsAfter[p])
    ensures DeadlineFits(after[subsAfter[p].taskId], subsAfter[q])
    ensures var t := after[subsAfter[p].taskId];
            && RelativeDeadline(t, subsAfter[p]) <= RelativeDeadline(t, subsAfter[q]) <= t.period
            && (subs[q].subtaskId == t.subtaskCount - 1 ==> RelativeDeadline(t, subsAfter[q]) == t.period)
  {
    hide CumulativeTime, TaskTime, TaskFits;
    assert SubtaskFits(tasks, subs, p) && SubtaskFits(tasks, subs, q);
    var i := subs[p].taskId;
    assert TaskFits(tasks, subs, n, i);
    CumulativesAlongTask(tasks, subs, n, p, q);
    assert tasks[i].period * TaskTime(tasks, subs, n, i) < 0x1_0000_0000;
    DeadlineOrder(tasks[i].period, CumulativeTime(tasks, subs, p), CumulativeTime(tasks, subs, q),
                  TaskTime(tasks, subs, n, i));
  }

  // The products of the relative deadlines stay within 32 bits.
  predicate PeriodsFit(tasks: seq<Task>, subs: seq<Subtask>, n: nat)
    requires Layout(tasks, subs, n)
  {
    forall i :: 0 <= i < |tasks| ==> tasks[i].period * TaskTime(tasks, subs, n, i) < 0x1_0000_0000
  }

  lemma DeadlineOrder(period: nat, a: nat, b: nat, total: nat)
    requires a <= b <= total && total > 0
    ensures period * a <= period * b <= period * total
    ensures period * a / total <= period * b / total <= period
    ensures b == total ==> period * b / total == period
  {
    ScaleOrder(period, a, b);
    ScaleOrder(period, b, total);
    ScaleOrder(total, period * a, period * b);
    FloorMonotone(period * a, total, period * b, total);
    FloorMonotone(period * b, total, period * total, total);
    QuotientUnique(period * total, total, period, 0);
  }
}
