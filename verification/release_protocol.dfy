// Run mode of the end-to-end scheduler: one task, a chain of subtasks that release each other.
module ReleaseProtocol {
  import opened Wrappers
  import opened Sequences

  datatype Phase = Sleeping | Woken | Running

  // A subtask thread with its timer. The histories and the count of lost wakes are bookkeeping
  // for the properties: no step reads them.
  datatype Subtask = Subtask(
    phase: Phase,
    lastRelease: int,
    timer: Option<int>,
    releases: seq<int>,
    completions: seq<int>,
    lost: nat)

  datatype State = State(period: int, now: int, started: bool, subs: seq<Subtask>)

  datatype Event =
    | StartAll
    | Dispatch(s: nat)
    | Complete(s: nat)
    | Fire(s: nat)
    | Tick

  // ---------- Steps ----------

  // Waking a thread that is not asleep has no effect.
  function Wake(t: Subtask): Subtask {
    if t.phase == Sleeping then t.(phase := Woken) else t.(lost := t.lost + 1)
  }

  // An expiry already past fires at once; a pending expiry is replaced.
  function Arm(t: Subtask, expiry: int, now: int): Subtask {
    if expiry <= now then Wake(t.(timer := None))
    else t.(timer := Some(expiry), lost := if t.timer.Some? then t.lost + 1 else t.lost)
  }

  function Release(t: Subtask, now: int): Subtask {
    t.(phase := Running, lastRelease := now, releases := t.releases + [now])
  }

  function GoToSleep(t: Subtask, now: int): Subtask {
    t.(phase := Sleeping, completions := t.completions + [now])
  }

  // The guard a predecessor applies to its successor.
  function ReleaseSuccessor(t: Subtask, period: int, now: int): Subtask {
    if t.lastRelease == 0 || now >= t.lastRelease + period then Wake(t)
    else Arm(t, t.lastRelease + period, now)
  }

  // The end of a job: a first subtask re-arms its own timer before it goes back to sleep.
  function FinishJob(t: Subtask, first: bool, period: int, now: int): Subtask {
    GoToSleep(if first then Arm(t, t.lastRelease + period, now) else t, now)
  }

  predicate Enabled(st: State, e: Event) {
    match e
    case StartAll => !st.started
    case Dispatch(s) => s < |st.subs| && st.subs[s].phase == Woken
    case Complete(s) =>
      s < |st.subs| && st.subs[s].phase == Running && st.now > st.subs[s].lastRelease
    case Fire(s) => s < |st.subs| && st.subs[s].timer.Some? && st.subs[s].timer.value <= st.now
    case Tick => forall t :: t in st.subs && t.timer.Some? ==> t.timer.value > st.now
  }

  function Apply(st: State, e: Event): State
    requires Enabled(st, e)
  {
    match e
    case StartAll =>
      st.(started := true, subs := if st.subs == [] then [] else st.subs[0 := Wake(st.subs[0])])
    case Dispatch(s) => st.(subs := st.subs[s := Release(st.subs[s], st.now)])
    case Complete(s) =>
      var subs := st.subs[s := FinishJob(st.subs[s], s == 0, st.period, st.now)];
      st.(subs := if s + 1 == |subs| then subs
                  else subs[s + 1 := ReleaseSuccessor(subs[s + 1], st.period, st.now)])
    case Fire(s) => st.(subs := st.subs[s := Wake(st.subs[s].(timer := None))])
    case Tick => st.(now := st.now + 1)
  }

  // The message about a missed deadline: a job that ends later than its relative deadline after the
  // last release of the first subtask.
  predicate Reported(st: State, deadline: int)
    requires |st.subs| > 0
  {
    st.subs[0].lastRelease + deadline < st.now
  }

  // ---------- Runs ----------

  predicate Initial(st: State) {
    st.period > 0 && st.now > 0 && !st.started
    && forall t :: t in st.subs ==> t == Subtask(Sleeping, 0, None, [], [], 0)
  }

  // A run is feasible when each of its events is enabled where it happens.
  predicate Feasible(st: State, run: seq<Event>)
    decreases |run|, 0
  {
    run == [] || (Feasible(st, Front(run)) && Enabled(Exec(st, Front(run)), run[|run| - 1]))
  }

  function Exec(st: State, run: seq<Event>): (after: State)
    requires Feasible(st, run)
    ensures after.period == st.period && |after.subs| == |st.subs|
    decreases |run|, 1
  {
    if run == [] then st else Apply(Exec(st, Front(run)), run[|run| - 1])
  }

  lemma ExecNext(st: State, run: seq<Event>, e: Event)
    requires Feasible(st, run) && Enabled(Exec(st, run), e)
    ensures Feasible(st, run + [e]) && Exec(st, run + [e]) == Apply(Exec(st, run), e)
  {
    assert Front(run + [e]) == run;
  }

  // A run may be cut anywhere.
  lemma {:induction false} Continue(st: State, run: seq<Event>, rest: seq<Event>)
    requires Feasible(st, run)
    ensures Feasible(st, run + rest) <==> Feasible(Exec(st, run), rest)
    ensures Feasible(st, run + rest) ==> Exec(st, run + rest) == Exec(Exec(st, run), rest)
    decreases |rest|
  {
    if rest == [] {
      assert run + rest == run;
    } else {
      hide Enabled, Apply;
      Continue(st, run, Front(rest));
      assert Front(run + rest) == run + Front(rest);
    }
  }

  lemma FirstStep(st: State, e: Event, rest: seq<Event>)
    requires Enabled(st, e) && Feasible(Apply(st, e), rest)
    ensures Feasible(st, [e]) && Exec(st, [e]) == Apply(st, e)
    ensures Feasible(st, [e] + rest) && Exec(st, [e] + rest) == Exec(Apply(st, e), rest)
  {
    hide Enabled, Apply;
    ExecNext(st, [], e);
    assert [] + [e] == [e];
    Continue(st, [e], rest);
  }

  // ---------- The invariant of every run ----------

  predicate Spaced(times: seq<int>, period: int, now: int) {
    && (forall k :: 0 <= k < |times| ==> 0 < times[k] <= now)
    && (forall k :: 0 < k < |times| ==> times[k] >= times[k - 1] + period)
  }

  predicate SubtaskInv(t: Subtask, period: int, now: int) {
    && |t.releases| == |t.completions| + (if t.phase == Running then 1 else 0)
    && t.lastRelease == (if t.releases == [] then 0 else t.releases[|t.releases| - 1])
    && Spaced(t.releases, period, now)
    && (forall k :: 0 <= k < |t.completions| ==> t.releases[k] < t.completions[k] <= now)
    && (t.phase == Woken ==> t.releases == [] || now >= t.lastRelease + period)
    && (t.timer.Some? ==> t.releases != [] && TimerInv(t, period, now))
  }

  // A pending expiry is one period after the last release, unless its wake is doomed.
  predicate TimerInv(t: Subtask, period: int, now: int)
    requires t.timer.Some?
  {
    var expiry := t.timer.value;
    expiry >= now
    && (expiry == t.lastRelease + period
        || (t.phase == Running && expiry == now == t.lastRelease))
  }

  function Pending(t: Subtask): nat {
    (if t.phase == Woken then 1 else 0) + (if t.timer.Some? then 1 else 0)
  }

  // Each completion of a predecessor has become a release of its successor, or the promise of one,
  // or a wake that was lost.
  predicate PairInv(p: Subtask, t: Subtask) {
    && |t.releases| + Pending(t) + t.lost == |p.completions|
    && forall k :: 0 <= k < |t.releases| ==> p.completions[k] <= t.releases[k]
  }

  predicate Inv(st: State) {
    && st.period > 0 && st.now > 0
    && (!st.started && |st.subs| > 0 ==> st.subs[0].phase == Sleeping && st.subs[0].releases == [])
    && (forall s :: 0 <= s < |st.subs| ==> SubtaskInv(st.subs[s], st.period, st.now))
    && (forall s :: 0 < s < |st.subs| ==> PairInv(st.subs[s - 1], st.subs[s]))
  }

  lemma WakeKeeps(t: Subtask, period: int, now: int)
    requires SubtaskInv(t, period, now) && (t.releases == [] || now >= t.lastRelease + period)
    ensures SubtaskInv(Wake(t), period, now)
  {
  }

  lemma ReleaseKeeps(p: Subtask, t: Subtask, period: int, now: int)
    requires now > 0 && period > 0 && SubtaskInv(t, period, now) && t.phase == Woken
    ensures SubtaskInv(Release(t, now), period, now)
    ensures SubtaskInv(p, period, now) && PairInv(p, t) ==> PairInv(p, Release(t, now))
    ensures Release(t, now).completions == t.completions
  {
  }

  lemma FinishKeeps(p: Subtask, t: Subtask, first: bool, period: int, now: int)
    requires period > 0 && SubtaskInv(t, period, now) && t.phase == Running && now > t.lastRelease
    ensures var u := FinishJob(t, first, period, now);
            SubtaskInv(u, period, now) && u.completions == t.completions + [now]
            && (!first && PairInv(p, t) ==> PairInv(p, u))
  {
  }

  lemma SuccessorKeeps(p: Subtask, q: Subtask, t: Subtask, period: int, now: int)
    requires period > 0 && SubtaskInv(t, period, now) && PairInv(p, t)
    requires q.completions == p.completions + [now]
    ensures var u := ReleaseSuccessor(t, period, now);
            SubtaskInv(u, period, now) && PairInv(q, u) && u.completions == t.completions
  {
  }

  lemma FireKeeps(p: Subtask, t: Subtask, period: int, now: int)
    requires SubtaskInv(t, period, now) && t.timer.Some? && t.timer.value <= now
    ensures var u := Wake(t.(timer := None));
            SubtaskInv(u, period, now) && u.completions == t.completions
            && (PairInv(p, t) ==> PairInv(p, u))
  {
  }

  lemma TickKeeps(t: Subtask, period: int, now: int)
    requires SubtaskInv(t, period, now) && (t.timer.Some? ==> t.timer.value > now)
    ensures SubtaskInv(t, period, now + 1)
  {
  }

  lemma InvInitial(st: State)
    requires Initial(st)
    ensures Inv(st)
  {
    assert forall s :: 0 <= s < |st.subs| ==> st.subs[s] in st.subs;
  }

  // Replacing one subtask keeps the invariant when its own facts and both its links hold.
  lemma ReplaceKeeps(st: State, s: nat, t: Subtask)
    requires Inv(st) && s < |st.subs| && SubtaskInv(t, st.period, st.now)
    requires t.completions == st.subs[s].completions
    requires s > 0 ==> PairInv(st.subs[s - 1], t)
    requires s == 0 ==> st.started
    ensures Inv(st.(subs := st.subs[s := t]))
  {
    hide SubtaskInv;
    var after := st.(subs := st.subs[s := t]);
    forall k | 0 < k < |after.subs|
      ensures PairInv(after.subs[k - 1], after.subs[k])
    {
      assert PairInv(st.subs[k - 1], st.subs[k]);
    }
  }

  lemma CompleteKeepsInv(st: State, s: nat)
    requires Inv(st) && Enabled(st, Complete(s))
    ensures Inv(Apply(st, Complete(s)))
  {
    hide SubtaskInv, FinishJob, ReleaseSuccessor;
    var n := |st.subs|;
    var t := st.subs[s];
    var after := Apply(st, Complete(s));
    FinishKeeps(st.subs[if s > 0 then s - 1 else 0], t, s == 0, st.period, st.now);
    if s + 1 < n {
      SuccessorKeeps(t, after.subs[s], st.subs[s + 1], st.period, st.now);
    }
    forall k | 0 < k < n
      ensures PairInv(after.subs[k - 1], after.subs[k])
    {
      assert PairInv(st.subs[k - 1], st.subs[k]);
    }
  }

  lemma StepKeepsInv(st: State, e: Event)
    requires Inv(st) && Enabled(st, e)
    ensures Inv(Apply(st, e))
  {
    hide PairInv, Spaced;
    match e
    case StartAll =>
      if st.subs != [] {
        WakeKeeps(st.subs[0], st.period, st.now);
        ReplaceKeeps(st.(started := true), 0, Wake(st.subs[0]));
      }
    case Dispatch(s) =>
      ReleaseKeeps(st.subs[if s > 0 then s - 1 else 0], st.subs[s], st.period, st.now);
      ReplaceKeeps(st, s, Release(st.subs[s], st.now));
    case Complete(s) =>
      CompleteKeepsInv(st, s);
    case Fire(s) =>
      FireKeeps(st.subs[if s > 0 then s - 1 else 0], st.subs[s], st.period, st.now);
      ReplaceKeeps(st, s, Wake(st.subs[s].(timer := None)));
    case Tick =>
      forall s | 0 <= s < |st.subs|
        ensures SubtaskInv(st.subs[s], st.period, st.now + 1)
      {
        assert st.subs[s] in st.subs;
        TickKeeps(st.subs[s], st.period, st.now);
      }
  }

  lemma {:induction false} RunKeepsInv(st: State, run: seq<Event>)
    requires Inv(st) && Feasible(st, run)
    ensures Inv(Exec(st, run))
    decreases |run|
  {
    hide Inv, Apply, Enabled;
    if run != [] {
      RunKeepsInv(st, Front(run));
      StepKeepsInv(Exec(st, Front(run)), run[|run| - 1]);
    }
  }

  // Two consecutive releases of a subtask are at least one period apart, in every run.
  lemma ReleaseGuard(st: State, run: seq<Event>, s: nat, k: nat)
    requires Initial(st) && Feasible(st, run) && s < |st.subs|
    ensures var times := Exec(st, run).subs[s].releases;
            0 < k < |times| ==> times[k] >= times[k - 1] + st.period
  {
    InvInitial(st);
    RunKeepsInv(st, run);
  }

  // Every completion is a release of the successor, a promise of one, or a lost wake; and the k-th
  // release of a subtask never precedes the k-th completion of its predecessor.
  lemma Precedence(st: State, run: seq<Event>, s: nat)
    requires Initial(st) && Feasible(st, run) && s + 1 < |st.subs|
    ensures var p, t := Exec(st, run).subs[s], Exec(st, run).subs[s + 1];
            && |t.releases| + Pending(t) + t.lost == |p.completions| <= |p.releases|
            && forall k :: 0 <= k < |t.releases| ==>
                 p.releases[k] < p.completions[k] <= t.releases[k]
  {
    InvInitial(st);
    RunKeepsInv(st, run);
    var after := Exec(st, run);
    assert PairInv(after.subs[s + 1 - 1], after.subs[s + 1]);
    assert SubtaskInv(after.subs[s], st.period, after.now);
  }

  // ---------- No release is dropped ----------

  // The predecessor has completed a job since the subtask's last release.
  predicate Owed(p: Subtask, t: Subtask) {
    p.completions != [] && (t.releases == [] || Last(p.completions) > t.lastRelease)
  }

  // The subtask's present job, or its last one when it sleeps, has run for a period or more.
  predicate Overstayed(t: Subtask, period: int, now: int) {
    t.releases != []
    && (if t.phase == Running then now >= t.lastRelease + period
        else t.completions != [] && Last(t.completions) >= t.lastRelease + period)
  }

  // A release that is owed is on its way, unless the subtask has overstayed; and a subtask that
  // sleeps with no timer has been asleep only since its predecessor's last completion.
  predicate OwedInv(p: Subtask, t: Subtask, period: int, now: int) {
    && (Owed(p, t) ==> Pending(t) > 0 || Overstayed(t, period, now))
    && (t.phase == Sleeping && t.timer == None && p.completions != [] ==>
          t.completions != [] && Last(p.completions) <= Last(t.completions))
  }

  ghost predicate AllOwed(st: State) {
    Inv(st) && forall s :: 0 < s < |st.subs| ==> OwedInv(st.subs[s - 1], st.subs[s], st.period, st.now)
  }

  lemma OwedRelease(p: Subtask, t: Subtask, period: int, now: int)
    requires OwedInv(p, t, period, now) && SubtaskInv(p, period, now) && t.phase == Woken
    ensures OwedInv(p, Release(t, now), period, now)
  {
  }

  lemma OwedFinish(p: Subtask, t: Subtask, period: int, now: int)
    requires OwedInv(p, t, period, now) && SubtaskInv(p, period, now) && t.phase == Running
    requires SubtaskInv(t, period, now)
    ensures OwedInv(p, FinishJob(t, false, period, now), period, now)
  {
  }

  lemma OwedSuccessor(p: Subtask, q: Subtask, t: Subtask, period: int, now: int)
    requires period > 0 && OwedInv(p, t, period, now) && SubtaskInv(t, period, now)
    requires q.completions == p.completions + [now]
    ensures OwedInv(q, ReleaseSuccessor(t, period, now), period, now)
  {
  }

  lemma OwedFire(p: Subtask, t: Subtask, period: int, now: int)
    requires OwedInv(p, t, period, now) && SubtaskInv(t, period, now) && SubtaskInv(p, period, now)
    requires t.timer.Some? && t.timer.value <= now
    ensures OwedInv(p, Wake(t.(timer := None)), period, now)
  {
  }

  // What happens to the predecessor besides a completion does not matter.
  lemma OwedSame(p: Subtask, q: Subtask, t: Subtask, period: int, now: int)
    requires OwedInv(p, t, period, now) && q.completions == p.completions
    ensures OwedInv(q, t, period, now) && OwedInv(q, t, period, now + 1)
  {
  }

  lemma OwedStepKeeps(st: State, e: Event)
    requires AllOwed(st) && Enabled(st, e)
    ensures AllOwed(Apply(st, e))
  {
    hide Inv, OwedInv, SubtaskInv, Release, FinishJob, ReleaseSuccessor, Wake;
    StepKeepsInv(st, e);
    var after := Apply(st, e);
    forall s | 0 < s < |after.subs|
      ensures OwedInv(after.subs[s - 1], after.subs[s], after.period, after.now)
    {
      OwedStepAt(st, e, s);
    }
  }

  lemma OwedStepAt(st: State, e: Event, s: nat)
    requires Inv(st) && Enabled(st, e) && 0 < s < |st.subs|
    requires OwedInv(st.subs[s - 1], st.subs[s], st.period, st.now)
    ensures var after := Apply(st, e);
            |after.subs| == |st.subs| && OwedInv(after.subs[s - 1], after.subs[s], st.period, after.now)
  {
    hide OwedInv, SubtaskInv, PairInv, ReleaseSuccessor;
    var p, t := st.subs[s - 1], st.subs[s];
    var after := Apply(st, e);
    assert SubtaskInv(p, st.period, st.now) && SubtaskInv(t, st.period, st.now);
    match e
    case StartAll => OwedSame(p, after.subs[s - 1], t, st.period, st.now);
    case Dispatch(k) =>
      if k == s {
        OwedRelease(p, t, st.period, st.now);
      } else {
        OwedSame(p, after.subs[s - 1], t, st.period, st.now);
      }
    case Complete(k) =>
      if k == s {
        OwedFinish(p, t, st.period, st.now);
      } else if k == s - 1 {
        OwedSuccessor(p, after.subs[s - 1], t, st.period, st.now);
      } else {
        CompletionsKept(p, st.period, st.now);
        OwedSame(p, after.subs[s - 1], t, st.period, st.now);
      }
    case Fire(k) =>
      if k == s {
        OwedFire(p, t, st.period, st.now);
      } else {
        OwedSame(p, after.subs[s - 1], t, st.period, st.now);
      }
    case Tick => OwedSame(p, p, t, st.period, st.now);
  }

  lemma CompletionsKept(t: Subtask, period: int, now: int)
    ensures ReleaseSuccessor(t, period, now).completions == t.completions
  {
  }

  lemma {:induction false} OwedRunKeeps(st: State, run: seq<Event>)
    requires AllOwed(st) && Feasible(st, run)
    ensures AllOwed(Exec(st, run))
    decreases |run|
  {
    hide AllOwed, Apply, Enabled;
    if run != [] {
      OwedRunKeeps(st, Front(run));
      OwedStepKeeps(Exec(st, Front(run)), Last(run));
    }
  }

  // In every run, once a predecessor has completed a job since the last release of its successor,
  // the next release is on its way, unless the successor's own job takes a period or more.
  lemma NoReleaseDropped(st: State, run: seq<Event>, s: nat)
    requires Initial(st) && Feasible(st, run) && s + 1 < |st.subs|
    ensures var after := Exec(st, run);
            var p, t := after.subs[s], after.subs[s + 1];
            && (Owed(p, t) ==> Pending(t) > 0 || Overstayed(t, st.period, after.now))
            && (t.phase == Sleeping && t.timer == None && p.completions != [] ==>
                  t.completions != [] && Last(p.completions) <= Last(t.completions))
  {
    InvInitial(st);
    assert forall k :: 0 <= k < |st.subs| ==> st.subs[k] in st.subs;
    OwedRunKeeps(st, run);
    assert OwedInv(Exec(st, run).subs[s + 1 - 1], Exec(st, run).subs[s + 1], st.period, Exec(st, run).now);
  }

  // Along a chain the release counts do not increase, and each link takes at least a tick.
  lemma {:induction false} PrecedenceAlongChain(st: State, run: seq<Event>, s: nat, k: nat)
    requires Initial(st) && Feasible(st, run) && s < |st.subs|
    requires k < |Exec(st, run).subs[s].releases|
    ensures var subs := Exec(st, run).subs;
            k < |subs[0].releases| && subs[0].releases[k] + s <= subs[s].releases[k]
  {
    if s > 0 {
      Precedence(st, run, s - 1);
      PrecedenceAlongChain(st, run, s - 1, k);
    }
  }

  // A completion reaches a successor that can take it: one that sleeps is woken if its period is over
  // and has its timer set otherwise, and one that runs within its period has its timer set.
  lemma CompletionReaches(st: State, s: nat)
    requires Inv(st) && Enabled(st, Complete(s)) && s + 1 < |st.subs|
    ensures var t, u := st.subs[s + 1], Apply(st, Complete(s)).subs[s + 1];
            var over := t.releases == [] || st.now >= t.lastRelease + st.period;
            && (t.phase == Sleeping && over ==> u.phase == Woken && u.lost == t.lost)
            && (t.phase != Woken && !over ==> u.phase == t.phase && u.timer == Some(t.lastRelease + st.period))
            && (t.phase != Sleeping && over ==> u == t.(lost := t.lost + 1))
  {
    hide PairInv, Spaced;
    assert SubtaskInv(st.subs[s + 1], st.period, st.now);
    Reminded(st.subs[s + 1], st.period, st.now);
  }

  lemma Reminded(t: Subtask, period: int, now: int)
    requires SubtaskInv(t, period, now)
    ensures t.releases == [] <==> t.lastRelease == 0
  {
  }

  // A timer that fires wakes a subtask that sleeps and is lost on any other.
  lemma FireReaches(st: State, s: nat)
    requires Enabled(st, Fire(s))
    ensures var t, u := st.subs[s], Apply(st, Fire(s)).subs[s];
            && u.timer == None
            && (if t.phase == Sleeping then u.phase == Woken && u.lost == t.lost
                else u.phase == t.phase && u.lost == t.lost + 1)
  {
  }

  // ---------- When a first subtask is released again ----------

  // A completed job of the first subtask is followed by a release, or by the promise of one,
  // exactly when it ended before its period was over; the start and every completion count once.
  predicate HeadInv(t: Subtask, started: bool, period: int) {
    && |t.releases| + Pending(t) + t.lost == |t.completions| + (if started then 1 else 0)
    && Pending(t) <= 1 && (t.phase == Running ==> Pending(t) == 0)
    && |t.completions| <= |t.releases|
    && forall k :: 0 <= k < |t.completions| ==>
         (t.completions[k] < t.releases[k] + period <==> k + 1 < |t.releases| || Pending(t) == 1)
  }

  lemma HeadDispatch(t: Subtask, period: int, now: int)
    requires HeadInv(t, true, period) && SubtaskInv(t, period, now) && t.phase == Woken
    ensures HeadInv(Release(t, now), true, period)
  {
  }

  lemma HeadComplete(t: Subtask, period: int, now: int)
    requires HeadInv(t, true, period) && SubtaskInv(t, period, now) && t.phase == Running
    ensures HeadInv(FinishJob(t, true, period, now), true, period)
  {
  }

  lemma HeadStepKeeps(st: State, e: Event)
    requires Inv(st) && Enabled(st, e) && |st.subs| > 0
    requires HeadInv(st.subs[0], st.started, st.period)
    ensures HeadInv(Apply(st, e).subs[0], Apply(st, e).started, st.period)
  {
    hide PairInv, Spaced, TimerInv, FinishJob, Release;
    var t := st.subs[0];
    match e
    case Dispatch(0) => HeadDispatch(t, st.period, st.now);
    case Complete(0) => HeadComplete(t, st.period, st.now);
    case _ =>
  }

  lemma {:induction false} RunKeepsHead(st: State, run: seq<Event>)
    requires Initial(st) && Feasible(st, run) && |st.subs| > 0
    ensures HeadInv(Exec(st, run).subs[0], Exec(st, run).started, st.period)
    decreases |run|
  {
    if run == [] {
      assert st.subs[0] in st.subs;
    } else {
      hide Inv, HeadInv, Apply, Enabled;
      RunKeepsHead(st, Front(run));
      InvInitial(st);
      RunKeepsInv(st, Front(run));
      HeadStepKeeps(Exec(st, Front(run)), Last(run));
    }
  }

  // In every run the k-th job of the first subtask is followed by another release, already made or
  // promised, if and only if it ended before its period was over.
  lemma ReleasedAgain(st: State, run: seq<Event>, k: nat)
    requires Initial(st) && Feasible(st, run) && |st.subs| > 0
    requires k < |Exec(st, run).subs[0].completions|
    ensures var t := Exec(st, run).subs[0];
            && k < |t.releases|
            && (t.completions[k] < t.releases[k] + st.period <==> k + 1 < |t.releases| || Pending(t) == 1)
  {
    RunKeepsHead(st, run);
  }

  // In every run the start and the completions of the first subtask are its releases, a promise of
  // one, or the wake that an overrun loses.
  lemma HeadWakesCounted(st: State, run: seq<Event>)
    requires Initial(st) && Feasible(st, run) && |st.subs| > 0
    ensures var after := Exec(st, run);
            var t := after.subs[0];
            && |t.releases| + Pending(t) + t.lost == |t.completions| + (if after.started then 1 else 0)
            && t.lost <= 1 && (t.lost == 1 <==> Stalled(after))
  {
    RunKeepsHead(st, run);
    InvInitial(st);
    RunKeepsInv(st, run);
  }

  // A first subtask's own re-arming survives exactly when its job ends before its period does.
  lemma RearmSurvives(st: State)
    requires Inv(st) && Enabled(st, Complete(0))
    ensures var t, u := st.subs[0], Apply(st, Complete(0)).subs[0];
            && (u.timer == Some(t.lastRelease + st.period) <==> st.now < t.lastRelease + st.period)
            && (u.timer == None <==> st.now >= t.lastRelease + st.period)
            && u.phase == Sleeping
  {
  }

  // Asleep with nothing to wake it.
  predicate Stalled(st: State) {
    st.started && |st.subs| > 0 && st.subs[0].phase == Sleeping && st.subs[0].timer == None
  }

  // Once the first subtask has overrun its period it is never released again.
  lemma {:induction false} OverrunEndsTask(st: State, run: seq<Event>)
    requires Stalled(st) && Feasible(st, run)
    ensures Stalled(Exec(st, run)) && Exec(st, run).subs[0].releases == st.subs[0].releases
    decreases |run|
  {
    if run != [] {
      OverrunEndsTask(st, Front(run));
    }
  }

  // Work that is due now: threads to dispatch, timers to fire, jobs to end before the next tick.
  function Load(t: Subtask, period: int, now: int): nat {
    (if t.phase == Woken then 1 else 0)
    + (if t.timer.Some? && t.timer.value <= now then 2 else 0)
    + (if t.phase == Running && now + 1 >= t.lastRelease + period then 2 else 0)
  }

  function Backlog(subs: seq<Subtask>, period: int, now: int): nat {
    if subs == [] then 0 else Backlog(Front(subs), period, now) + Load(Last(subs), period, now)
  }

  lemma {:induction false} BacklogWith(subs: seq<Subtask>, s: nat, t: Subtask, period: int, now: int)
    requires s < |subs|
    ensures Backlog(subs[s := t], period, now)
            == Backlog(subs, period, now) - Load(subs[s], period, now) + Load(t, period, now)
  {
    hide Load;
    if s == |subs| - 1 {
      assert Front(subs[s := t]) == Front(subs);
    } else {
      BacklogWith(Front(subs), s, t, period, now);
      assert Front(subs[s := t]) == Front(subs)[s := t];
    }
  }

  // A pending timer of the first subtask can always run its course.
  lemma {:induction false} WaitForTimer(st: State) returns (rest: seq<Event>)
    requires |st.subs| > 0 && st.subs[0].phase == Sleeping && st.subs[0].timer.Some?
    requires st.subs[0].timer.value >= st.now
    ensures Feasible(st, rest)
    ensures |Exec(st, rest).subs[0].releases| == |st.subs[0].releases| + 1
    decreases st.subs[0].timer.value - st.now, Backlog(st.subs, st.period, st.now)
  {
    var t := st.subs[0];
    if t.timer.value == st.now {
      var fired := Apply(st, Fire(0));
      FirstStep(fired, Dispatch(0), []);
      FirstStep(st, Fire(0), [Dispatch(0)]);
      rest := [Fire(0)] + [Dispatch(0)];
    } else if s :| 0 <= s < |st.subs| && Enabled(st, Fire(s)) {
      BacklogWith(st.subs, s, Wake(st.subs[s].(timer := None)), st.period, st.now);
      var later := WaitForTimer(Apply(st, Fire(s)));
      FirstStep(st, Fire(s), later);
      rest := [Fire(s)] + later;
    } else {
      forall u | u in st.subs && u.timer.Some?
        ensures u.timer.value > st.now
      {
        var s :| 0 <= s < |st.subs| && st.subs[s] == u;
        assert !Enabled(st, Fire(s));
      }
      var later := WaitForTimer(Apply(st, Tick));
      FirstStep(st, Tick, later);
      rest := [Tick] + later;
    }
  }

  // Some continuation releases the first subtask once more.
  ghost predicate ComesAgain(st: State)
    requires |st.subs| > 0
  {
    exists rest :: Feasible(st, rest) && |Exec(st, rest).subs[0].releases| > |st.subs[0].releases|
  }

  // The end of a job decides for good: the first subtask can be released again if and only if the
  // job ended before its period was over.
  lemma OverrunIsFinal(st: State, run: seq<Event>)
    requires Initial(st) && Feasible(st, run) && Enabled(Exec(st, run), Complete(0))
    ensures Feasible(st, run + [Complete(0)])
    ensures ComesAgain(Exec(st, run + [Complete(0)]))
            <==> Exec(st, run).now < Exec(st, run).subs[0].lastRelease + st.period
  {
    hide Feasible, Exec;
    var mid := Exec(st, run);
    var done := Apply(mid, Complete(0));
    ExecNext(st, run, Complete(0));
    InvInitial(st);
    RunKeepsInv(st, run);
    RunKeepsHead(st, run);
    RearmSurvives(mid);
    if mid.now < mid.subs[0].lastRelease + st.period {
      var rest := WaitForTimer(done);
      assert ComesAgain(done);
    } else {
      assert Stalled(done);
      forall rest | Feasible(done, rest)
        ensures Exec(done, rest).subs[0].releases == done.subs[0].releases
      {
        OverrunEndsTask(done, rest);
      }
    }
  }

  // The same, told as one run: nothing that follows an overrun releases the first subtask.
  lemma NothingAfterOverrun(st: State, run: seq<Event>, rest: seq<Event>)
    requires Initial(st) && Feasible(st, run) && Enabled(Exec(st, run), Complete(0))
    requires Exec(st, run).now >= Exec(st, run).subs[0].lastRelease + st.period
    requires Feasible(st, run + [Complete(0)] + rest)
    ensures Exec(st, run + [Complete(0)] + rest).subs[0].releases == Exec(st, run).subs[0].releases
  {
    hide Feasible, Exec;
    var mid := Exec(st, run);
    ExecNext(st, run, Complete(0));
    Continue(st, run + [Complete(0)], rest);
    InvInitial(st);
    RunKeepsInv(st, run);
    RunKeepsHead(st, run);
    OverrunEndsTask(Apply(mid, Complete(0)), rest);
  }

  function Ticks(n: nat): (run: seq<Event>)
    ensures |run| == n
  {
    if n == 0 then [] else Ticks(n - 1) + [Tick]
  }

  // The clock passes undisturbed until the next timer.
  lemma {:induction false} TicksPass(st: State, n: nat)
    requires forall t :: t in st.subs && t.timer.Some? ==> t.timer.value >= st.now + n
    ensures Feasible(st, Ticks(n)) && Exec(st, Ticks(n)) == st.(now := st.now + n)
  {
    if n > 0 {
      hide Feasible, Exec;
      TicksPass(st, n - 1);
      var mid := st.(now := st.now + (n - 1));
      assert Enabled(mid, Tick) && Apply(mid, Tick) == st.(now := st.now + n);
      ExecNext(st, Ticks(n - 1), Tick);
    }
  }

  // The first job of a task starts at the start timer and takes the given time.
  function FirstJob(time: nat): seq<Event> {
    [StartAll] + [Dispatch(0)] + Ticks(time) + [Complete(0)]
  }

  lemma FirstJobRuns(st: State, time: nat)
    requires Initial(st) && |st.subs| > 0 && time > 0
    ensures Feasible(st, [StartAll] + [Dispatch(0)] + Ticks(time))
    ensures var mid := Exec(st, [StartAll] + [Dispatch(0)] + Ticks(time));
            && mid.subs == st.subs[0 := Release(st.subs[0], st.now)] && mid.started
            && mid.now == st.now + time
    ensures Feasible(st, FirstJob(time))
  {
    assert st.subs[0] in st.subs;
    ExecNext(st, [], StartAll);
    assert [] + [StartAll] == [StartAll];
    ExecNext(st, [StartAll], Dispatch(0));
    var ready := Exec(st, [StartAll] + [Dispatch(0)]);
    assert ready.subs == st.subs[0 := Release(st.subs[0], st.now)];
    forall t | t in ready.subs
      ensures t.timer == None
    {
      assert t in st.subs || t == ready.subs[0];
    }
    TicksPass(ready, time);
    Continue(st, [StartAll] + [Dispatch(0)], Ticks(time));
    ExecNext(st, [StartAll] + [Dispatch(0)] + Ticks(time), Complete(0));
  }

  // Whatever the period, a first job that takes as long ends the task, and a shorter one does not.
  lemma OverrunHappens(st: State, time: nat)
    requires Initial(st) && |st.subs| > 0 && time > 0
    ensures Feasible(st, FirstJob(time))
    ensures Stalled(Exec(st, FirstJob(time))) <==> time >= st.period
    ensures ComesAgain(Exec(st, FirstJob(time))) <==> time < st.period
  {
    hide Feasible, Exec, Ticks;
    var run := [StartAll] + [Dispatch(0)] + Ticks(time);
    FirstJobRuns(st, time);
    OverrunIsFinal(st, run);
    ExecNext(st, run, Complete(0));
  }

  // ---------- The threads and timers of one task, updated in place ----------

  class Task {
    const period: int
    const subs: array<Subtask>
    var now: int
    var started: bool
    ghost const origin: State
    ghost var run: seq<Event>

    // The threads are where a feasible run from the initial state leaves them.
    ghost predicate Valid()
      reads this, subs
    {
      Initial(origin) && Feasible(origin, run) && Exec(origin, run) == View()
    }

    function View(): State
      reads this, subs
    {
      State(period, now, started, subs[..])
    }

    constructor (period: int, count: nat, now: int)
      requires period > 0 && now > 0
      ensures Valid() && Initial(View()) && |View().subs| == count && fresh(subs)
      ensures View().period == period && View().now == now
    {
      this.period := period;
      this.now := now;
      started := false;
      subs := new Subtask[count](_ => Subtask(Sleeping, 0, None, [], [], 0));
      origin := State(period, now, false, seq(count, _ => Subtask(Sleeping, 0, None, [], [], 0)));
      run := [];
      new;
      assert subs[..] == origin.subs;
    }

    // The start timer wakes the first subtask.
    method StartTimer()
      requires Valid() && Enabled(View(), StartAll)
      modifies this, subs
      ensures Valid() && run == old(run) + [StartAll] && View() == Apply(old(View()), StartAll)
    {
      hide Exec, Feasible, Initial;
      ExecNext(origin, run, StartAll);
      run := run + [StartAll];
      started := true;
      if subs.Length > 0 {
        subs[0] := Wake(subs[0]);
      }
    }

    // The thread of subtask s gets to run: the top half of its loop.
    method Dispatched(s: nat)
      requires Valid() && Enabled(View(), Dispatch(s))
      modifies subs, this`run
      ensures Valid() && run == old(run) + [Dispatch(s)] && View() == Apply(old(View()), Dispatch(s))
    {
      hide Exec, Feasible, Initial;
      ExecNext(origin, run, Dispatch(s));
      run := run + [Dispatch(s)];
      subs[s] := subs[s].(phase := Running, lastRelease := now, releases := subs[s].releases + [now]);
    }

    // The job of subtask s, with its relative deadline, is done: the bottom half of its loop.
    method JobDone(s: nat, deadline: int) returns (missed: bool)
      requires Valid() && Enabled(View(), Complete(s))
      modifies subs, this`run
      ensures Valid() && run == old(run) + [Complete(s)] && View() == Apply(old(View()), Complete(s))
      ensures missed <==> Reported(old(View()), deadline)
    {
      hide Exec, Feasible, Initial;
      ExecNext(origin, run, Complete(s));
      run := run + [Complete(s)];
      missed := deadline + subs[0].lastRelease < now;
      if s == 0 {
        subs[s] := Arm(subs[s], subs[s].lastRelease + period, now);
      }
      if s < subs.Length - 1 {
        var successor := subs[s + 1];
        if successor.lastRelease == 0 || now >= period + successor.lastRelease {
          subs[s + 1] := Wake(successor);
        } else {
          subs[s + 1] := Arm(successor, period + successor.lastRelease, now);
        }
      }
      subs[s] := subs[s].(phase := Sleeping, completions := subs[s].completions + [now]);
    }

    // The timer of subtask s expires.
    method TimerFired(s: nat)
      requires Valid() && Enabled(View(), Fire(s))
      modifies subs, this`run
      ensures Valid() && run == old(run) + [Fire(s)] && View() == Apply(old(View()), Fire(s))
    {
      hide Exec, Feasible, Initial;
      ExecNext(origin, run, Fire(s));
      run := run + [Fire(s)];
      subs[s] := Wake(subs[s].(timer := None));
    }

    method ClockTick()
      requires Valid() && Enabled(View(), Tick)
      modifies this
      ensures Valid() && run == old(run) + [Tick] && View() == Apply(old(View()), Tick)
    {
      hide Exec, Feasible, Initial;
      ExecNext(origin, run, Tick);
      run := run + [Tick];
      now := now + 1;
    }
  }
}
