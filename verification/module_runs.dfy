// Runs of the whole module in run mode: many tasks, one clock, one start timer.
module ModuleRuns {
  import opened ReleaseProtocol
  import opened TimelyRuns
  import opened Sequences

  datatype Action =
    | StartTimer
    | Step(task: nat, event: Event)
    | ClockTick

  predicate AllEnabled(chains: seq<State>, e: Event) {
    forall i :: 0 <= i < |chains| ==> Enabled(chains[i], e)
  }

  function ApplyAll(chains: seq<State>, e: Event): (after: seq<State>)
    requires AllEnabled(chains, e)
    ensures |after| == |chains|
  {
    seq(|chains|, i requires 0 <= i < |chains| => Apply(chains[i], e))
  }

  // The start timer and the clock concern every task, any other event just one.
  predicate ActionEnabled(chains: seq<State>, a: Action) {
    match a
    case StartTimer => AllEnabled(chains, StartAll)
    case Step(i, e) => i < |chains| && e != StartAll && e != Tick && Enabled(chains[i], e)
    case ClockTick => AllEnabled(chains, Tick)
  }

  function Act(chains: seq<State>, a: Action): (after: seq<State>)
    requires ActionEnabled(chains, a)
    ensures |after| == |chains|
  {
    match a
    case StartTimer => ApplyAll(chains, StartAll)
    case Step(i, e) => chains[i := Apply(chains[i], e)]
    case ClockTick => ApplyAll(chains, Tick)
  }

  predicate ModuleFeasible(chains: seq<State>, run: seq<Action>)
    decreases |run|, 0
  {
    run == []
    || (ModuleFeasible(chains, Front(run)) && ActionEnabled(ModuleExec(chains, Front(run)), run[|run| - 1]))
  }

  function ModuleExec(chains: seq<State>, run: seq<Action>): (after: seq<State>)
    requires ModuleFeasible(chains, run)
    ensures |after| == |chains|
    decreases |run|, 1
  {
    if run == [] then chains else Act(ModuleExec(chains, Front(run)), run[|run| - 1])
  }

  // What task i sees of an action, and of a run.
  function Seen(a: Action, i: nat): seq<Event> {
    match a
    case StartTimer => [StartAll]
    case Step(k, e) => if k == i then [e] else []
    case ClockTick => [Tick]
  }

  function View(run: seq<Action>, i: nat): seq<Event> {
    if run == [] then [] else View(Front(run), i) + Seen(run[|run| - 1], i)
  }

  // A run of the module is, for each of its tasks, a run of that task.
  lemma {:induction false} TaskRunsAlone(chains: seq<State>, run: seq<Action>, i: nat)
    requires ModuleFeasible(chains, run) && i < |chains|
    ensures Feasible(chains[i], View(run, i))
    ensures ModuleExec(chains, run)[i] == Exec(chains[i], View(run, i))
    decreases |run|
  {
    hide Apply, Enabled;
    if run != [] {
      var front, a := Front(run), run[|run| - 1];
      TaskRunsAlone(chains, front, i);
      var seen := Seen(a, i);
      if seen == [] {
        assert View(run, i) == View(front, i);
      } else {
        ExecNext(chains[i], View(front, i), seen[0]);
        assert View(run, i) == View(front, i) + [seen[0]];
      }
    }
  }

  // The release guard of every subtask of every task, whatever the other tasks do.
  lemma ModuleReleaseGuard(chains: seq<State>, run: seq<Action>, i: nat, s: nat, k: nat)
    requires ModuleFeasible(chains, run) && i < |chains| && Initial(chains[i])
    requires s < |ModuleExec(chains, run)[i].subs|
    ensures var times := ModuleExec(chains, run)[i].subs[s].releases;
            0 < k < |times| ==> times[k] >= times[k - 1] + chains[i].period
  {
    TaskRunsAlone(chains, run, i);
    ReleaseGuard(chains[i], View(run, i), s, k);
  }

  // Precedence along every task of the module, whatever the other tasks do.
  lemma ModulePrecedence(chains: seq<State>, run: seq<Action>, i: nat, s: nat)
    requires ModuleFeasible(chains, run) && i < |chains| && Initial(chains[i])
    requires s + 1 < |ModuleExec(chains, run)[i].subs|
    ensures var p, t := ModuleExec(chains, run)[i].subs[s], ModuleExec(chains, run)[i].subs[s + 1];
            && |t.releases| + Pending(t) + t.lost == |p.completions| <= |p.releases|
            && forall k :: 0 <= k < |t.releases| ==>
                 p.releases[k] < p.completions[k] <= t.releases[k]
  {
    TaskRunsAlone(chains, run, i);
    Precedence(chains[i], View(run, i), s);
  }

  // ---------- What is timely for one task ----------

  // At every tick task i has no thread waiting and no job that reaches its period; the other tasks
  // may be late.
  predicate TimelyFor(chains: seq<State>, run: seq<Action>, i: nat)
    requires ModuleFeasible(chains, run) && i < |chains|
    decreases |run|
  {
    run == [] || (TimelyFor(chains, Front(run), i)
                  && (Last(run) == ClockTick ==> TimelyTick(ModuleExec(chains, Front(run))[i])))
  }

  lemma {:induction false} TaskIsTimely(chains: seq<State>, run: seq<Action>, i: nat)
    requires ModuleFeasible(chains, run) && i < |chains| && TimelyFor(chains, run, i)
    ensures Feasible(chains[i], View(run, i)) && Timely(chains[i], View(run, i))
    decreases |run|
  {
    hide Apply, Enabled, TimelyTick;
    TaskRunsAlone(chains, run, i);
    if run != [] {
      var front, seen := Front(run), Seen(Last(run), i);
      TaskIsTimely(chains, front, i);
      TaskRunsAlone(chains, front, i);
      if seen == [] {
        assert View(run, i) == View(front, i);
      } else {
        assert View(run, i) == View(front, i) + [seen[0]];
        assert Front(View(run, i)) == View(front, i);
      }
    }
  }

  // No wake of a timely task is lost, whatever the other tasks do.
  lemma ModuleLossless(chains: seq<State>, run: seq<Action>, i: nat, s: nat)
    requires ModuleFeasible(chains, run) && i < |chains| && Initial(chains[i]) && TimelyFor(chains, run, i)
    requires s < |ModuleExec(chains, run)[i].subs|
    ensures var subs := ModuleExec(chains, run)[i].subs;
            && subs[s].lost == 0
            && (s > 0 ==>
                  && |subs[s].releases| + Pending(subs[s]) == |subs[s - 1].completions| <= |subs[s - 1].releases|
                  && forall k :: 0 <= k < |subs[s].releases| ==>
                       subs[s].releases[k] < subs[s - 1].releases[k] + chains[i].period)
  {
    TaskRunsAlone(chains, run, i);
    TaskIsTimely(chains, run, i);
    LosslessChain(chains[i], View(run, i), s);
  }

  // The release law of a timely task, whatever the other tasks do.
  lemma ModuleReleaseLaw(chains: seq<State>, run: seq<Action>, i: nat, s: nat, k: nat)
    requires ModuleFeasible(chains, run) && i < |chains| && Initial(chains[i]) && TimelyFor(chains, run, i)
    requires 0 < s < |ModuleExec(chains, run)[i].subs| && k < |ModuleExec(chains, run)[i].subs[s].releases|
    ensures var p, t := ModuleExec(chains, run)[i].subs[s - 1], ModuleExec(chains, run)[i].subs[s];
            k < |p.completions| && t.releases[k] == Due(p, t, chains[i].period, k)
  {
    TaskRunsAlone(chains, run, i);
    TaskIsTimely(chains, run, i);
    ReleaseLaw(chains[i], View(run, i), s, k);
  }

  // The periodic release of a timely task, whatever the other tasks do.
  lemma ModulePeriodicRelease(chains: seq<State>, run: seq<Action>, i: nat, s: nat, k: nat)
    requires ModuleFeasible(chains, run) && i < |chains| && Initial(chains[i]) && TimelyFor(chains, run, i)
    requires s < |ModuleExec(chains, run)[i].subs| && k < |ModuleExec(chains, run)[i].subs[s].releases|
    ensures var subs := ModuleExec(chains, run)[i].subs;
            && k < |subs[0].releases|
            && var due := subs[0].releases[0] + k * chains[i].period;
               subs[0].releases[k] == due
               && due + s <= subs[s].releases[k] <= due + s * (chains[i].period - 1)
  {
    hide ModuleExec, ModuleFeasible, TimelyFor, Initial, Exec, Feasible, Timely, View;
    TaskRunsAlone(chains, run, i);
    TaskIsTimely(chains, run, i);
    PeriodicRelease(chains[i], View(run, i), s, k);
  }

  // The first subtask of any task comes again exactly after the jobs that ended in their period.
  lemma ModuleReleasedAgain(chains: seq<State>, run: seq<Action>, i: nat, k: nat)
    requires ModuleFeasible(chains, run) && i < |chains| && Initial(chains[i])
    requires |ModuleExec(chains, run)[i].subs| > 0 && k < |ModuleExec(chains, run)[i].subs[0].completions|
    ensures var t := ModuleExec(chains, run)[i].subs[0];
            && k < |t.releases|
            && (t.completions[k] < t.releases[k] + chains[i].period <==> k + 1 < |t.releases| || Pending(t) == 1)
  {
    TaskRunsAlone(chains, run, i);
    ReleasedAgain(chains[i], View(run, i), k);
  }

  // ---------- All tasks together can be timely for ever ----------

  predicate OneClock(chains: seq<State>, now: int) {
    forall i :: 0 <= i < |chains| ==> chains[i].now == now
  }

  // Every task is where a timely run can bring it, and no period is a single tick.
  predicate AllTimely(chains: seq<State>) {
    forall i :: 0 <= i < |chains| ==> TimelyInv(chains[i]) && chains[i].period >= 2
  }

  predicate TimelyForAll(chains: seq<State>, run: seq<Action>)
    requires ModuleFeasible(chains, run)
  {
    forall i :: 0 <= i < |chains| ==> TimelyFor(chains, run, i)
  }

  // An action that makes no task late.
  predicate TimelyAction(chains: seq<State>, a: Action) {
    ActionEnabled(chains, a) && (a == ClockTick ==> forall i :: 0 <= i < |chains| ==> TimelyTick(chains[i]))
  }

  function AllBehind(chains: seq<State>): nat {
    if chains == [] then 0 else AllBehind(Front(chains)) + Behind(Last(chains))
  }

  lemma {:induction false} AllBehindWith(chains: seq<State>, i: nat, st: State)
    requires i < |chains|
    ensures AllBehind(chains[i := st]) == AllBehind(chains) - Behind(chains[i]) + Behind(st)
  {
    hide Behind;
    if i == |chains| - 1 {
      assert Front(chains[i := st]) == Front(chains);
    } else {
      AllBehindWith(Front(chains), i, st);
      assert Front(chains[i := st]) == Front(chains)[i := st];
    }
  }

  // A task with work to do does some of it; when none has any, the clock ticks.
  lemma ModuleNeverStuck(chains: seq<State>, now: int) returns (a: Action)
    requires AllTimely(chains) && OneClock(chains, now)
    ensures TimelyAction(chains, a) && AllTimely(Act(chains, a))
    ensures OneClock(Act(chains, a), if a == ClockTick then now + 1 else now)
    ensures a != ClockTick ==> AllBehind(Act(chains, a)) < AllBehind(chains)
  {
    hide TimelyInv, TimelyTick, Behind, Enabled;
    if i :| 0 <= i < |chains| && !(Enabled(chains[i], Tick) && TimelyTick(chains[i])) {
      var e := TimelyNeverStuck(chains[i]);
      TimelyStepKeeps(chains[i], e);
      SamePeriod(chains[i], e);
      AllBehindWith(chains, i, Apply(chains[i], e));
      a := Step(i, e);
    } else {
      a := ClockTick;
      forall i | 0 <= i < |chains|
        ensures TimelyInv(Apply(chains[i], Tick))
      {
        TimelyStepKeeps(chains[i], Tick);
      }
    }
  }

  lemma SamePeriod(st: State, e: Event)
    requires Enabled(st, e)
    ensures Apply(st, e).period == st.period
  {
  }

  lemma {:induction false} ModuleContinue(chains: seq<State>, run: seq<Action>, rest: seq<Action>)
    requires ModuleFeasible(chains, run) && ModuleFeasible(ModuleExec(chains, run), rest)
    ensures ModuleFeasible(chains, run + rest)
    ensures ModuleExec(chains, run + rest) == ModuleExec(ModuleExec(chains, run), rest)
    decreases |rest|
  {
    hide ActionEnabled, Act;
    if rest == [] {
      assert run + rest == run;
    } else {
      ModuleContinue(chains, run, Front(rest));
      assert Front(run + rest) == run + Front(rest);
    }
  }

  lemma {:induction false} TimelyForContinue(chains: seq<State>, run: seq<Action>, rest: seq<Action>, i: nat)
    requires ModuleFeasible(chains, run) && ModuleFeasible(ModuleExec(chains, run), rest) && i < |chains|
    requires TimelyFor(chains, run, i) && TimelyFor(ModuleExec(chains, run), rest, i)
    ensures ModuleFeasible(chains, run + rest) && TimelyFor(chains, run + rest, i)
    decreases |rest|
  {
    hide ActionEnabled, Act, TimelyTick;
    ModuleContinue(chains, run, rest);
    if rest == [] {
      assert run + rest == run;
    } else {
      TimelyForContinue(chains, run, Front(rest), i);
      ModuleContinue(chains, run, Front(rest));
      assert Front(run + rest) == run + Front(rest);
    }
  }

  lemma TimelyForAllContinue(chains: seq<State>, run: seq<Action>, rest: seq<Action>)
    requires ModuleFeasible(chains, run) && TimelyForAll(chains, run)
    requires ModuleFeasible(ModuleExec(chains, run), rest) && TimelyForAll(ModuleExec(chains, run), rest)
    ensures ModuleFeasible(chains, run + rest) && TimelyForAll(chains, run + rest)
    ensures ModuleExec(chains, run + rest) == ModuleExec(ModuleExec(chains, run), rest)
  {
    hide ModuleExec, ModuleFeasible, TimelyFor;
    ModuleContinue(chains, run, rest);
    forall i | 0 <= i < |chains|
      ensures TimelyFor(chains, run + rest, i)
    {
      TimelyForContinue(chains, run, rest, i);
    }
  }

  lemma ModuleFirst(chains: seq<State>, a: Action)
    requires TimelyAction(chains, a)
    ensures ModuleFeasible(chains, [a]) && TimelyForAll(chains, [a])
    ensures ModuleExec(chains, [a]) == Act(chains, a)
  {
    assert Front([a]) == [];
  }

  lemma {:induction false} ModuleTimePasses(chains: seq<State>, now: int, time: int) returns (rest: seq<Action>)
    requires AllTimely(chains) && OneClock(chains, now) && time >= now
    ensures ModuleFeasible(chains, rest) && TimelyForAll(chains, rest)
    ensures OneClock(ModuleExec(chains, rest), time)
    decreases time - now, AllBehind(chains)
  {
    hide AllTimely, OneClock, ActionEnabled, TimelyTick, AllBehind, Act;
    if time == now {
      rest := [];
    } else {
      var a := ModuleNeverStuck(chains, now);
      var later := ModuleTimePasses(Act(chains, a), if a == ClockTick then now + 1 else now, time);
      ModuleFirst(chains, a);
      TimelyForAllContinue(chains, [a], later);
      rest := [a] + later;
    }
  }

  lemma {:induction false} ClocksAgree(chains: seq<State>, run: seq<Action>, now: int) returns (later: int)
    requires ModuleFeasible(chains, run) && OneClock(chains, now)
    ensures OneClock(ModuleExec(chains, run), later) && later >= now
    decreases |run|
  {
    if run == [] {
      later := now;
    } else {
      later := ClocksAgree(chains, Front(run), now);
      later := if Last(run) == ClockTick then later + 1 else later;
    }
  }

  // Any number of tasks with periods of at least two ticks, timely so far under one clock, can all
  // stay timely until any later time.
  lemma ModuleGoesOn(chains: seq<State>, run: seq<Action>, time: int) returns (rest: seq<Action>)
    requires forall i :: 0 <= i < |chains| ==> Initial(chains[i]) && chains[i].period >= 2
    requires exists now :: OneClock(chains, now)
    requires ModuleFeasible(chains, run) && TimelyForAll(chains, run)
    requires forall i :: 0 <= i < |chains| ==> ModuleExec(chains, run)[i].now <= time
    ensures ModuleFeasible(chains, run + rest) && TimelyForAll(chains, run + rest)
    ensures OneClock(ModuleExec(chains, run + rest), time)
  {
    hide TimelyInv, LawInv, Initial, ModuleExec, ModuleFeasible, TimelyFor;
    var mid := ModuleExec(chains, run);
    forall i | 0 <= i < |chains|
      ensures TimelyInv(mid[i]) && mid[i].period >= 2
    {
      TaskRunsAlone(chains, run, i);
      TaskIsTimely(chains, run, i);
      TimelyInitial(chains[i]);
      TimelyOfLaw(chains[i]);
      TimelyRunKeeps(chains[i], View(run, i));
    }
    var start :| OneClock(chains, start);
    var now := ClocksAgree(chains, run, start);
    if |chains| == 0 {
      now := time;
    } else {
      assert mid[0].now == now;
    }
    rest := ModuleTimePasses(mid, now, time);
    TimelyForAllContinue(chains, run, rest);
  }
}
