// What the message about missed deadlines says. It measures a job from the last release of the first
// subtask, which may already be the start of a later instance than the job's own.
module MissedDeadlines {
  import opened Words
  import opened Sequences
  import opened Wrappers
  import opened ReleaseProtocol
  import opened TimelyRuns
  import TaskSet
  import Deadlines

  // The instance a subtask is working on: it has completed those before.
  function Instance(st: State, s: nat): nat
    requires s < |st.subs|
  {
    |st.subs[s].completions|
  }

  // The time from the release of that instance to now.
  function Response(st: State, s: nat): int
    requires s < |st.subs| && Instance(st, s) < |st.subs[0].releases|
  {
    st.now - st.subs[0].releases[Instance(st, s)]
  }

  // A subtask at the end of a job works on an instance that the first subtask has released.
  lemma InstanceReleased(st: State, run: seq<Event>, s: nat)
    requires Initial(st) && Feasible(st, run) && Enabled(Exec(st, run), Complete(s))
    ensures var mid := Exec(st, run);
            && s < |mid.subs| == |st.subs| && Instance(mid, s) < |mid.subs[0].releases|
            && mid.subs[0].lastRelease == Last(mid.subs[0].releases) <= mid.now
  {
    InvInitial(st);
    RunKeepsInv(st, run);
    var mid := Exec(st, run);
    assert SubtaskInv(mid.subs[s], st.period, mid.now) && SubtaskInv(mid.subs[0], st.period, mid.now);
    PrecedenceAlongChain(st, run, s, Instance(mid, s));
  }

  // In every run a reported job is late, and a late job is reported if and only if the first subtask
  // has not been released again, or the job is that late even for the latest instance.
  lemma ReportedExactly(st: State, run: seq<Event>, s: nat, deadline: int)
    requires Initial(st) && Feasible(st, run) && Enabled(Exec(st, run), Complete(s))
    requires 0 <= deadline <= st.period
    ensures var mid := Exec(st, run);
            && Instance(mid, s) < |mid.subs[0].releases|
            && (Reported(mid, deadline) ==> Response(mid, s) > deadline)
            && ((Reported(mid, deadline) <==> Response(mid, s) > deadline)
                <==> || Instance(mid, s) + 1 == |mid.subs[0].releases|
                     || mid.now > Last(mid.subs[0].releases) + deadline
                     || Response(mid, s) == st.period == deadline)
  {
    hide Exec, Feasible, Initial, Enabled;
    var mid := Exec(st, run);
    InstanceReleased(st, run, s);
    var k, last := Instance(mid, s), |mid.subs[0].releases| - 1;
    if k < last {
      ReleasesApart(st, run, k + 1, last);
      ReleaseGuard(st, run, 0, k + 1);
    }
  }

  lemma {:induction false} ReleasesApart(st: State, run: seq<Event>, i: nat, k: nat)
    requires Initial(st) && Feasible(st, run) && |st.subs| > 0 && i <= k < |Exec(st, run).subs[0].releases|
    ensures Exec(st, run).subs[0].releases[i] <= Exec(st, run).subs[0].releases[k]
    decreases k
  {
    hide Exec, Feasible;
    if i < k {
      ReleasesApart(st, run, i, k - 1);
      ReleaseGuard(st, run, 0, k);
    }
  }

  // In a timely run the message looks at the response time modulo the period: it overlooks whole
  // periods. The last disjunct is the tick at which the next release is due and may have happened.
  lemma MissedModuloPeriod(st: State, run: seq<Event>, s: nat, deadline: int)
    requires Initial(st) && Feasible(st, run) && Timely(st, run) && Enabled(Exec(st, run), Complete(s))
    requires 0 <= deadline <= st.period
    ensures var mid := Exec(st, run);
            && Instance(mid, s) < |mid.subs[0].releases|
            && (Reported(mid, deadline)
                <==> if Response(mid, s) % st.period != 0 then Response(mid, s) % st.period > deadline
                     else deadline < st.period && mid.subs[0].lastRelease < mid.now)
  {
    hide Exec, Feasible, Timely, Initial, Enabled, Inv, TimelyPair;
    var mid := Exec(st, run);
    InstanceReleased(st, run, s);
    InWholePeriods(st, run, Instance(mid, s));
    MessageLooksAt(mid.now, mid.subs[0].releases[Instance(mid, s)], mid.subs[0].lastRelease, st.period,
                   |mid.subs[0].releases| - 1 - Instance(mid, s), deadline);
  }

  lemma MessageLooksAt(now: int, release: int, lastRelease: int, period: nat, m: nat, deadline: int)
    requires period > 0 && lastRelease - release == m * period && lastRelease <= now <= lastRelease + period
    requires 0 <= deadline <= period
    ensures var rest := (now - release) % period;
            lastRelease + deadline < now
            <==> if rest != 0 then rest > deadline else deadline < period && lastRelease < now
  {
    RestOf(now - release, period, m, now - lastRelease);
  }

  lemma RestOf(x: nat, p: nat, m: nat, r: nat)
    requires p > 0 && r <= p && x == m * p + r
    ensures x % p == (if r < p then r else 0)
  {
    if r < p {
      QuotientUnique(x, p, m, r);
    } else {
      OneMore(m + 1, p);
      QuotientUnique(x, p, m + 1, 0);
    }
  }

  // The first subtask's last release lies a whole number of periods behind any earlier one, and at
  // most one before now.
  lemma InWholePeriods(st: State, run: seq<Event>, k: nat)
    requires Initial(st) && Feasible(st, run) && Timely(st, run) && |st.subs| > 0
    requires k < |Exec(st, run).subs[0].releases|
    ensures var t := Exec(st, run).subs[0];
            && st.period > 0
            && t.lastRelease - t.releases[k] == (|t.releases| - 1 - k) * st.period
            && t.lastRelease <= Exec(st, run).now <= t.lastRelease + st.period
  {
    hide Exec, Feasible, Timely, PairInv, TimelyPair;
    var mid := Exec(st, run);
    var t := mid.subs[0];
    TimelyInitial(st);
    TimelyRunKeeps(st, run);
    HeadKeepsPace(t, mid.started, st.period, mid.now);
    EveryPeriod(t.releases, st.period, k);
    EveryPeriod(t.releases, st.period, |t.releases| - 1);
    Apart(|t.releases| - 1, k, st.period);
  }

  lemma Apart(m: int, k: int, x: int)
    ensures m * x - k * x == (m - k) * x
  {
  }

  // So in a timely run the report is right, between two releases of the first subtask, if and only
  // if the job ends within the period of its instance or exceeds the deadline modulo the period.
  lemma ReportIsRight(st: State, run: seq<Event>, s: nat, deadline: int)
    requires Initial(st) && Feasible(st, run) && Timely(st, run) && Enabled(Exec(st, run), Complete(s))
    requires 0 <= deadline <= st.period
    ensures var mid := Exec(st, run);
            && Instance(mid, s) < |mid.subs[0].releases|
            && var x := Response(mid, s);
               x % st.period != 0 ==>
                 ((Reported(mid, deadline) <==> x > deadline) <==> x < st.period || x % st.period > deadline)
  {
    hide Exec, Feasible, Timely, Initial, Enabled, Reported;
    MissedModuloPeriod(st, run, s, deadline);
    InstanceReleased(st, run, s);
    ReleasesBefore(st, run, s);
    RestBelow(Response(Exec(st, run), s), st.period);
  }

  lemma RestBelow(x: nat, p: nat)
    requires p > 0
    ensures x < p ==> x % p == x
    ensures x % p < p
  {
  }

  lemma ReleasesBefore(st: State, run: seq<Event>, s: nat)
    requires Initial(st) && Feasible(st, run) && Enabled(Exec(st, run), Complete(s))
    ensures var mid := Exec(st, run);
            && s < |mid.subs| && Instance(mid, s) < |mid.subs[0].releases|
            && Response(mid, s) >= 0 && st.period > 0
  {
    hide Exec, Feasible;
    var mid := Exec(st, run);
    InstanceReleased(st, run, s);
    ReleasesApart(st, run, Instance(mid, s), |mid.subs[0].releases| - 1);
  }

  // The last subtask of a task has its whole period as its deadline, and in a timely run no job of
  // it is ever reported, however late.
  lemma LastSubtaskNeverReported(tasks: seq<TaskSet.Task>, subs: seq<TaskSet.Subtask>, n: nat,
                                 after: seq<TaskSet.Task>, subsAfter: seq<TaskSet.Subtask>, q: nat,
                                 st: State, run: seq<Event>)
    requires TaskSet.Layout(tasks, subs, n)
    requires Deadlines.AccumulatedUpTo(tasks, subs, n, |tasks|, after, subsAfter)
    requires Deadlines.PeriodsFit(tasks, subs, n)
    requires q < n && TaskSet.SubtaskFits(tasks, subs, q)
    requires subs[q].subtaskId == tasks[subs[q].taskId].subtaskCount - 1
    requires Initial(st) && st.period == tasks[subs[q].taskId].period
    requires Feasible(st, run) && Timely(st, run) && Enabled(Exec(st, run), Complete(subs[q].subtaskId))
    ensures subsAfter[q].taskId < |after| && TaskSet.DeadlineFits(after[subsAfter[q].taskId], subsAfter[q])
    ensures !Reported(Exec(st, run), Deadlines.RelativeDeadline(after[subsAfter[q].taskId], subsAfter[q]))
  {
    hide Exec, Feasible, Timely, Initial, Enabled;
    Deadlines.DeadlinesAlongTask(tasks, subs, n, after, subsAfter, q, q);
    MissedModuloPeriod(st, run, subs[q].subtaskId, st.period);
    ReleasesBefore(st, run, subs[q].subtaskId);
  }

  lemma TimelyNext(st: State, run: seq<Event>, e: Event)
    requires Feasible(st, run) && Timely(st, run) && Enabled(Exec(st, run), e)
    requires e == Tick ==> TimelyTick(Exec(st, run))
    ensures Feasible(st, run + [e]) && Timely(st, run + [e])
    ensures Exec(st, run + [e]) == Apply(Exec(st, run), e)
  {
    assert Front(run + [e]) == run;
  }

  lemma QuietTick(mid: State, st: State, n: nat)
    requires n > 0 && Quiet(st, n) && mid == st.(now := st.now + (n - 1))
    ensures Enabled(mid, Tick) && TimelyTick(mid) && Apply(mid, Tick) == st.(now := st.now + n)
  {
    assert forall t :: t in mid.subs ==> t in st.subs;
  }

  // For n ticks nothing is due.
  predicate Quiet(st: State, n: nat) {
    forall t :: t in st.subs ==>
      && t.phase != Woken && (t.timer.Some? ==> t.timer.value >= st.now + n)
      && (t.phase == Running ==> st.now + n < t.lastRelease + st.period)
  }

  lemma QuietBefore(st: State, n: nat)
    requires n > 0 && Quiet(st, n)
    ensures Quiet(st, n - 1)
  {
  }

  // Ticks before any timer, thread or period is due are timely.
  lemma {:induction false} TimelyTicks(st: State, n: nat)
    requires Quiet(st, n)
    ensures Feasible(st, Ticks(n)) && Timely(st, Ticks(n))
    ensures Exec(st, Ticks(n)) == st.(now := st.now + n)
  {
    if n == 0 {
      EmptyRun(st);
    } else {
      hide Feasible, Exec, Timely, Enabled, Apply, TimelyTick, Quiet;
      QuietBefore(st, n);
      TimelyTicks(st, n - 1);
      QuietTick(st.(now := st.now + (n - 1)), st, n);
      TimelyNext(st, Ticks(n - 1), Tick);
    }
  }

  // The first subtask takes its period less a tick, the second one starts then and is still running
  // when the first is released again.
  function LateRun(period: nat): seq<Event>
    requires period >= 3
  {
    [StartAll] + [Dispatch(0)] + Ticks(period - 1) + [Complete(0)] + [Dispatch(1)] + [Tick]
    + [Fire(0)] + [Dispatch(0)] + [Tick]
  }

  // With any period of three ticks or more a task of two subtasks can end a job a tick too late, in
  // a timely run and unreported.
  lemma UnreportedMiss(st: State)
    requires Initial(st) && |st.subs| == 2 && st.period >= 3
    ensures Feasible(st, LateRun(st.period)) && Timely(st, LateRun(st.period))
    ensures var mid := Exec(st, LateRun(st.period));
            && Enabled(mid, Complete(1)) && Instance(mid, 1) == 0 && |mid.subs[0].releases| == 2
            && Response(mid, 1) == st.period + 1 && !Reported(mid, st.period)
  {
    hide Feasible, Exec, Timely, Ticks;
    LateRunOverlaps(st);
    var run := [StartAll] + [Dispatch(0)] + Ticks(st.period - 1) + [Complete(0)] + [Dispatch(1)] + [Tick];
    TimelyNext(st, run, Fire(0));
    run := run + [Fire(0)];
    TimelyNext(st, run, Dispatch(0));
    run := run + [Dispatch(0)];
    TimelyNext(st, run, Tick);
  }

  lemma LateRunOverlaps(st: State)
    requires Initial(st) && |st.subs| == 2 && st.period >= 3
    ensures var run := [StartAll] + [Dispatch(0)] + Ticks(st.period - 1) + [Complete(0)] + [Dispatch(1)] + [Tick];
            && Feasible(st, run) && Timely(st, run)
            && var done := st.now + st.period - 1;
               Exec(st, run) == State(st.period, done + 1, true,
                                      [Subtask(Sleeping, st.now, Some(done + 1), [st.now], [done], 0),
                                       Subtask(Running, done, None, [done], [], 0)])
  {
    hide Feasible, Exec, Timely, Ticks;
    LateRunStarts(st);
    var done := st.now + st.period - 1;
    assert [] + [done] == [done];
    var run := [StartAll] + [Dispatch(0)] + Ticks(st.period - 1);
    TimelyNext(st, run, Complete(0));
    run := run + [Complete(0)];
    assert Exec(st, run).subs == [Subtask(Sleeping, st.now, Some(done + 1), [st.now], [done], 0),
                                  Subtask(Woken, 0, None, [], [], 0)];
    TimelyNext(st, run, Dispatch(1));
    run := run + [Dispatch(1)];
    assert Exec(st, run).subs == [Subtask(Sleeping, st.now, Some(done + 1), [st.now], [done], 0),
                                  Subtask(Running, done, None, [done], [], 0)];
    TimelyNext(st, run, Tick);
  }

  lemma LateRunStarts(st: State)
    requires Initial(st) && |st.subs| == 2 && st.period >= 3
    ensures var run := [StartAll] + [Dispatch(0)] + Ticks(st.period - 1);
            && Feasible(st, run) && Timely(st, run)
            && Exec(st, run) == State(st.period, st.now + st.period - 1, true,
                                      [Subtask(Running, st.now, None, [st.now], [], 0),
                                       Subtask(Sleeping, 0, None, [], [], 0)])
  {
    hide Feasible, Exec, Timely, Ticks;
    assert st.subs[0] in st.subs && st.subs[1] in st.subs;
    EmptyRun(st);
    TimelyNext(st, [], StartAll);
    assert [] + [StartAll] == [StartAll];
    TimelyNext(st, [StartAll], Dispatch(0));
    var start := [StartAll] + [Dispatch(0)];
    assert [] + [st.now] == [st.now];
    assert Exec(st, start).subs == [Subtask(Running, st.now, None, [st.now], [], 0),
                                    Subtask(Sleeping, 0, None, [], [], 0)];
    TimelyTicks(Exec(st, start), st.period - 1);
    TimelyContinue(st, start, Ticks(st.period - 1));
    Continue(st, start, Ticks(st.period - 1));
  }

  lemma EmptyRun(st: State)
    ensures Feasible(st, []) && Timely(st, []) && Exec(st, []) == st
  {
  }
}
