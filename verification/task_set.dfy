// The static tables of the scheduler and its two comparators.
module TaskSet {
  import opened Words

  // Fields are 32-bit in the tables; every value computed from them is checked where it is computed.
  datatype Task = Task(period: nat, subtaskCount: nat, subtaskStartIdx: nat, exeTime: nat)

  datatype Subtask = Subtask(
    taskId: nat,
    subtaskId: nat,
    exeTime: nat,
    loopCount: nat,
    cumulativeExeTime: nat,
    core: nat,
    priority: nat)

  // The layout of the tables: the first n subtasks are the tasks' own runs, in order.
  predicate Layout(tasks: seq<Task>, subs: seq<Subtask>, n: nat) {
    && n <= |subs|
    && (forall i :: 0 <= i < |tasks| ==> TaskFits(tasks, subs, n, i))
    && (forall p :: 0 <= p < n ==> SubtaskFits(tasks, subs, p))
  }

  predicate TaskFits(tasks: seq<Task>, subs: seq<Subtask>, n: nat, i: nat)
    requires i < |tasks| && n <= |subs|
  {
    var t := tasks[i];
    && t.period > 0 && t.subtaskStartIdx + t.subtaskCount <= n
    && forall p :: t.subtaskStartIdx <= p < t.subtaskStartIdx + t.subtaskCount ==> subs[p].taskId == i
  }

  predicate SubtaskFits(tasks: seq<Task>, subs: seq<Subtask>, p: nat)
    requires p < |subs|
  {
    var s := subs[p];
    && s.taskId < |tasks| && s.exeTime > 0
    && s.subtaskId < tasks[s.taskId].subtaskCount
    && p == tasks[s.taskId].subtaskStartIdx + s.subtaskId
  }

  // ---------- Fractions ----------

  lemma CancelFactor(x: int, y: int, d: int)
    requires d > 0 && x * d <= y * d
    ensures x <= y
  {
  }

  lemma Reorder(x: int, y: int, z: int)
    ensures x * y * z == x * z * y == y * z * x
  {
  }

  // a / p <= b / q and b / q <= c / r give a / p <= c / r.
  lemma FractionTransitive(a: nat, p: nat, b: nat, q: nat, c: nat, r: nat)
    requires p > 0 && q > 0 && r > 0
    requires a * q <= b * p && b * r <= c * q
    ensures a * r <= c * p
  {
    Reorder(a, q, r);
    Reorder(b, p, r);
    Reorder(c, q, p);
    ScaleOrder(r, a * q, b * p);
    ScaleOrder(p, b * r, c * q);
    CancelFactor(a * r, c * p, q);
  }

  // A smaller fraction has no larger floor.
  lemma FloorMonotone(a: nat, p: nat, b: nat, q: nat)
    requires p > 0 && q > 0 && a * q <= b * p
    ensures a / p <= b / q
  {
    var f := a / p;
    assert f * p <= a;
    ScaleOrder(q, f * p, a);
    Reorder(f, p, q);
    CancelFactor(f * q, b, p);
    AtMostQuotient(f, b, q);
  }

  lemma AtMostQuotient(f: nat, b: nat, q: nat)
    requires q > 0 && f * q <= b
    ensures f <= b / q
  {
    var g := b / q;
    assert b == q * g + b % q;
    if f > g {
      ScaleOrder(q, g + 1, f);
    }
  }

  // ---------- Comparators ----------

  // Negative when l comes first: decreasing utilisation.
  function CompUtil(l: Subtask, lpa: Task, r: Subtask, rpa: Task): int
    requires FitsInt64(l.exeTime * rpa.period) && FitsInt64(r.exeTime * lpa.period)
  {
    var left: int64 := l.exeTime * rpa.period;
    var right: int64 := r.exeTime * lpa.period;
    if left > right then -1 else if left < right then 1 else 0
  }

  // Negative when l comes first: by core, then increasing relative deadline.
  function CompRelDdl(l: Subtask, lpa: Task, r: Subtask, rpa: Task): int
    requires FitsInt64(lpa.period * l.cumulativeExeTime * rpa.exeTime)
    requires FitsInt64(rpa.period * r.cumulativeExeTime * lpa.exeTime)
  {
    if l.core < r.core then -1
    else if l.core > r.core then 1
    else
      var left: int64 := lpa.period * l.cumulativeExeTime * rpa.exeTime;
      var right: int64 := rpa.period * r.cumulativeExeTime * lpa.exeTime;
      if left < right then -1 else if left > right then 1 else 0
  }

  predicate FitsInt64(x: int) {
    -0x8000_0000_0000_0000 <= x < 0x8000_0000_0000_0000
  }

  // What comp_util needs of the first n subtasks: real periods, and products within 64 bits.
  predicate UtilReady(tasks: seq<Task>, subs: seq<Subtask>, n: nat) {
    && n <= |subs|
    && (forall p :: 0 <= p < n ==> subs[p].taskId < |tasks| && tasks[subs[p].taskId].period > 0)
    && (forall p, q :: 0 <= p < n && 0 <= q < n ==>
          FitsInt64(subs[p].exeTime * tasks[subs[q].taskId].period))
  }

  // What comp_rel_ddl needs: real execution times, and products within 64 bits; and what the
  // deadline of run mode needs: its product within 32 bits.
  predicate DeadlineReady(tasks: seq<Task>, subs: seq<Subtask>, n: nat) {
    && n <= |subs|
    && (forall p :: 0 <= p < n ==> subs[p].taskId < |tasks| && DeadlineFits(tasks[subs[p].taskId], subs[p]))
    && (forall p, q :: 0 <= p < n && 0 <= q < n ==>
          FitsInt64(tasks[subs[p].taskId].period * subs[p].cumulativeExeTime * tasks[subs[q].taskId].exeTime))
  }

  predicate DeadlineFits(t: Task, s: Subtask) {
    t.exeTime > 0 && t.period * s.cumulativeExeTime < 0x1_0000_0000
  }

  // The comparators as the sort uses them: on positions in the subtask table.
  function ByUtil(tasks: seq<Task>, subs: seq<Subtask>, n: nat, a: nat, b: nat): int
    requires UtilReady(tasks, subs, n) && a < n && b < n
  {
    CompUtil(subs[a], tasks[subs[a].taskId], subs[b], tasks[subs[b].taskId])
  }

  function ByRelDdl(tasks: seq<Task>, subs: seq<Subtask>, n: nat, a: nat, b: nat): int
    requires DeadlineReady(tasks, subs, n) && a < n && b < n
  {
    CompRelDdl(subs[a], tasks[subs[a].taskId], subs[b], tasks[subs[b].taskId])
  }

  // comp_util is a total preorder on subtasks of tasks with positive periods.
  lemma UtilPreorder(tasks: seq<Task>, subs: seq<Subtask>, n: nat, a: nat, b: nat, c: nat)
    requires UtilReady(tasks, subs, n) && a < n && b < n && c < n
    ensures ByUtil(tasks, subs, n, a, b) == -ByUtil(tasks, subs, n, b, a)
    ensures ByUtil(tasks, subs, n, a, b) <= 0 && ByUtil(tasks, subs, n, b, c) <= 0
            ==> ByUtil(tasks, subs, n, a, c) <= 0
  {
    if ByUtil(tasks, subs, n, a, b) <= 0 && ByUtil(tasks, subs, n, b, c) <= 0 {
      FractionTransitive(subs[c].exeTime, tasks[subs[c].taskId].period,
                         subs[b].exeTime, tasks[subs[b].taskId].period,
                         subs[a].exeTime, tasks[subs[a].taskId].period);
    }
  }

  // comp_rel_ddl is a total preorder on subtasks of tasks with positive execution times.
  lemma RelDdlPreorder(tasks: seq<Task>, subs: seq<Subtask>, n: nat, a: nat, b: nat, c: nat)
    requires DeadlineReady(tasks, subs, n) && a < n && b < n && c < n
    ensures ByRelDdl(tasks, subs, n, a, b) == -ByRelDdl(tasks, subs, n, b, a)
    ensures ByRelDdl(tasks, subs, n, a, b) <= 0 && ByRelDdl(tasks, subs, n, b, c) <= 0
            ==> ByRelDdl(tasks, subs, n, a, c) <= 0
  {
    if ByRelDdl(tasks, subs, n, a, b) <= 0 && ByRelDdl(tasks, subs, n, b, c) <= 0 {
      var s, t, u := subs[a], subs[b], subs[c];
      var sp, tp, up := tasks[s.taskId], tasks[t.taskId], tasks[u.taskId];
      if s.core == u.core {
        FractionTransitive(sp.period * s.cumulativeExeTime, sp.exeTime,
                           tp.period * t.cumulativeExeTime, tp.exeTime,
                           up.period * u.cumulativeExeTime, up.exeTime);
      }
    }
  }
}
