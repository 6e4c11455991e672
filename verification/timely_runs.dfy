// Timely runs of one task: woken threads run at once and jobs end within a period.
module TimelyRuns {
  import opened Wrappers
  import opened Sequences
  import opened ReleaseProtocol

  // ---------- No wake is lost ----------

  // Time passes only when no woken thread waits and no job reaches its period.
  predicate TimelyTick(st: State) {
    forall t :: t in st.subs ==>
      t.phase != Woken && (t.phase == Running ==> st.now + 1 < t.lastRelease + st.period)
  }

  predicate Timely(st: State, run: seq<Event>)
    requires Feasible(st, run)
    decreases |run|
  {
    run == [] || (Timely(st, Front(run))
                  && (run[|run| - 1] == Tick ==> TimelyTick(Exec(st, Front(run)))))
  }

  predicate TimelySubtask(t: Subtask, period: int, now: int) {
    && t.lost == 0
    && Pending(t) <= 1
    && (t.phase == Running ==> now < t.lastRelease + period)
    && (t.timer.Some? ==> t.timer.value == t.lastRelease + period)
  }

  // The first subtask is released exactly once a period.
  predicate TimelyHead(t: Subtask, started: bool, period: int, now: int) {
    && |t.releases| + Pending(t) == |t.completions| + (if started then 1 else 0)
    && (t.phase == Woken && t.releases != [] ==> now == t.lastRelease + period)
    && forall k :: 0 < k < |t.releases| ==> t.releases[k] == t.releases[k - 1] + period
  }

  predicate TimelyPair(p: Subtask, t: Subtask, period: int, now: int) {
    && |t.releases| + Pending(t) == |p.completions| <= |p.releases|
    && (p.phase == Running ==> Pending(t) == 0)
    && (t.timer.Some? ==> t.timer.value < p.lastRelease + period)
    && (t.phase == Woken ==> now < p.lastRelease + period)
    && forall k :: 0 <= k < |t.releases| ==> t.releases[k] < p.releases[k] + period
  }

  predicate TimelyInv(st: State) {
    && Inv(st)
    && (forall s :: 0 <= s < |st.subs| ==> TimelySubtask(st.subs[s], st.period, st.now))
    && (forall s :: 0 < s < |st.subs| ==> TimelyPair(st.subs[s - 1], st.subs[s], st.period, st.now))
    && (|st.subs| > 0 ==> TimelyHead(st.subs[0], st.started, st.period, st.now))
  }

  lemma TimelyRelease(t: Subtask, period: int, now: int)
    requires period > 0 && t.phase == Woken
    requires SubtaskInv(t, period, now) && TimelySubtask(t, period, now)
    ensures TimelySubtask(Release(t, now), period, now)
    ensures TimelyHead(t, true, period, now) ==> TimelyHead(Release(t, now), true, period, now)
  {
  }

  lemma TimelyReleaseAfter(p: Subtask, t: Subtask, period: int, now: int)
    requires t.phase == Woken && TimelySubtask(t, period, now) && TimelyPair(p, t, period, now)
    requires SubtaskInv(p, period, now)
    ensures TimelyPair(p, Release(t, now), period, now)
  {
  }

  // When a subtask is released again, its last completion has already been paid out.
  lemma TimelyReleaseBefore(t: Subtask, u: Subtask, period: int, now: int)
    requires t.phase == Woken && SubtaskInv(t, period, now) && SubtaskInv(u, period, now)
    requires TimelyPair(t, u, period, now)
    ensures TimelyPair(Release(t, now), u, period, now)
  {
  }

  lemma TimelyFinish(t: Subtask, first: bool, period: int, now: int)
    requires t.phase == Running && SubtaskInv(t, period, now) && TimelySubtask(t, period, now)
    requires first ==> TimelyHead(t, true, period, now)
    ensures var u := FinishJob(t, first, period, now);
            TimelySubtask(u, period, now) && (first ==> TimelyHead(u, true, period, now))
  {
  }

  lemma TimelyFinishAfter(p: Subtask, t: Subtask, period: int, now: int)
    requires TimelyPair(p, t, period, now) && t.phase == Running
    ensures TimelyPair(p, FinishJob(t, false, period, now), period, now)
  {
  }

  // The guard finds the successor asleep, or arms an idle timer that expires in time.
  lemma TimelySuccessor(t: Subtask, first: bool, u: Subtask, period: int, now: int)
    requires period > 0 && t.phase == Running
    requires SubtaskInv(t, period, now) && TimelySubtask(t, period, now)
    requires SubtaskInv(u, period, now) && TimelySubtask(u, period, now)
    requires TimelyPair(t, u, period, now)
    ensures var done, next := FinishJob(t, first, period, now), ReleaseSuccessor(u, period, now);
            && TimelySubtask(next, period, now) && TimelyPair(done, next, period, now)
            && SameToSuccessor(u, next)
  {
  }

  // What a successor sees of its predecessor has not changed.
  predicate SameToSuccessor(t: Subtask, u: Subtask) {
    && u.completions == t.completions && u.releases == t.releases
    && u.lastRelease == t.lastRelease && (u.phase == Running ==> t.phase == Running)
  }

  lemma TimelyFire(t: Subtask, period: int, now: int)
    requires SubtaskInv(t, period, now) && TimelySubtask(t, period, now)
    requires t.timer.Some? && t.timer.value <= now
    ensures var u := Wake(t.(timer := None));
            && TimelySubtask(u, period, now) && SameToSuccessor(t, u)
            && (TimelyHead(t, true, period, now) ==> TimelyHead(u, true, period, now))
            && forall p :: TimelyPair(p, t, period, now) ==> TimelyPair(p, u, period, now)
  {
  }

  lemma TimelyReplace(st: State, s: nat, t: Subtask)
    requires TimelyInv(st) && s < |st.subs| && Inv(st.(subs := st.subs[s := t]))
    requires TimelySubtask(t, st.period, st.now)
    requires s == 0 ==> TimelyHead(t, st.started, st.period, st.now)
    requires s > 0 ==> TimelyPair(st.subs[s - 1], t, st.period, st.now)
    requires s + 1 < |st.subs| ==> TimelyPair(t, st.subs[s + 1], st.period, st.now)
    ensures TimelyInv(st.(subs := st.subs[s := t]))
  {
    hide Inv, TimelySubtask, TimelyHead;
    var after := st.(subs := st.subs[s := t]);
    forall k | 0 < k < |after.subs|
      ensures TimelyPair(after.subs[k - 1], after.subs[k], st.period, st.now)
    {
      assert TimelyPair(st.subs[k - 1], st.subs[k], st.period, st.now);
    }
  }

  lemma TimelyCompleteKeeps(st: State, s: nat)
    requires TimelyInv(st) && Enabled(st, Complete(s))
    ensures TimelyInv(Apply(st, Complete(s)))
  {
    hide SubtaskInv, PairInv, TimelySubtask, TimelyHead, FinishJob, ReleaseSuccessor;
    var n, after := |st.subs|, Apply(st, Complete(s));
    StepKeepsInv(st, Complete(s));
    TimelyFinish(st.subs[s], s == 0, st.period, st.now);
    if s > 0 {
      TimelyFinishAfter(st.subs[s - 1], st.subs[s], st.period, st.now);
    }
    if s + 1 < n {
      TimelySuccessor(st.subs[s], s == 0, st.subs[s + 1], st.period, st.now);
    }
    forall k | 0 < k < n
      ensures TimelyPair(after.subs[k - 1], after.subs[k], st.period, st.now)
    {
      assert TimelyPair(st.subs[k - 1], st.subs[k], st.period, st.now);
    }
  }

  lemma TimelyDispatchKeeps(st: State, s: nat)
    requires TimelyInv(st) && Enabled(st, Dispatch(s))
    ensures TimelyInv(Apply(st, Dispatch(s)))
  {
    hide PairInv, Spaced, Release;
    var t := st.subs[s];
    StepKeepsInv(st, Dispatch(s));
    TimelyRelease(t, st.period, st.now);
    if s > 0 {
      TimelyReleaseAfter(st.subs[s - 1], t, st.period, st.now);
    }
    if s + 1 < |st.subs| {
      TimelyReleaseBefore(t, st.subs[s + 1], st.period, st.now);
    }
    TimelyReplace(st, s, Release(t, st.now));
  }

  lemma TimelyFireKeeps(st: State, s: nat)
    requires TimelyInv(st) && Enabled(st, Fire(s))
    ensures TimelyInv(Apply(st, Fire(s)))
  {
    hide PairInv, Spaced, Wake;
    var t := st.subs[s];
    StepKeepsInv(st, Fire(s));
    TimelyFire(t, st.period, st.now);
    if s + 1 < |st.subs| {
      assert TimelyPair(st.subs[s + 1 - 1], st.subs[s + 1], st.period, st.now);
    }
    TimelyReplace(st, s, Wake(t.(timer := None)));
  }

  lemma TimelyTickKeeps(st: State)
    requires TimelyInv(st) && Enabled(st, Tick) && TimelyTick(st)
    ensures TimelyInv(Apply(st, Tick))
  {
    hide SubtaskInv, PairInv;
    StepKeepsInv(st, Tick);
    assert forall s :: 0 <= s < |st.subs| ==> st.subs[s] in st.subs;
  }

  lemma TimelyWake(t: Subtask, period: int, now: int)
    requires t.phase == Sleeping && t.releases == [] && SubtaskInv(t, period, now)
    requires TimelySubtask(t, period, now) && TimelyHead(t, false, period, now)
    ensures TimelySubtask(Wake(t), period, now) && TimelyHead(Wake(t), true, period, now)
    ensures SameToSuccessor(t, Wake(t))
  {
  }

  lemma TimelyStartKeeps(st: State)
    requires TimelyInv(st) && Enabled(st, StartAll)
    ensures TimelyInv(Apply(st, StartAll))
  {
    hide PairInv, SubtaskInv, TimelySubtask, TimelyHead, Wake;
    StepKeepsInv(st, StartAll);
    if st.subs != [] {
      var after := Apply(st, StartAll);
      TimelyWake(st.subs[0], st.period, st.now);
      forall k | 0 < k < |after.subs|
        ensures TimelyPair(after.subs[k - 1], after.subs[k], st.period, st.now)
      {
        assert TimelyPair(st.subs[k - 1], st.subs[k], st.period, st.now);
      }
    }
  }

  lemma TimelyStepKeeps(st: State, e: Event)
    requires TimelyInv(st) && Enabled(st, e) && (e == Tick ==> TimelyTick(st))
    ensures TimelyInv(Apply(st, e))
  {
    hide TimelyInv, Apply;
    match e
    case StartAll => TimelyStartKeeps(st);
    case Dispatch(s) => TimelyDispatchKeeps(st, s);
    case Complete(s) => TimelyCompleteKeeps(st, s);
    case Fire(s) => TimelyFireKeeps(st, s);
    case Tick => TimelyTickKeeps(st);
  }

  lemma TimelyInitial(st: State)
    requires Initial(st)
    ensures LawInv(st)
  {
    InvInitial(st);
    assert forall s :: 0 <= s < |st.subs| ==> st.subs[s] in st.subs;
  }

  lemma {:induction false} TimelyRunKeeps(st: State, run: seq<Event>)
    requires TimelyInv(st) && Feasible(st, run) && Timely(st, run)
    ensures TimelyInv(Exec(st, run))
    decreases |run|
  {
    if run != [] {
      hide TimelyInv, Apply, Enabled;
      TimelyRunKeeps(st, Front(run));
      TimelyStepKeeps(Exec(st, Front(run)), run[|run| - 1]);
    }
  }

  // If woken threads are dispatched at once and jobs finish within a period, no wake is lost.
  lemma LosslessChain(st: State, run: seq<Event>, s: nat)
    requires Initial(st) && Feasible(st, run) && Timely(st, run) && s < |st.subs|
    ensures Exec(st, run).subs[s].lost == 0
    ensures s > 0 ==>
              var p, t := Exec(st, run).subs[s - 1], Exec(st, run).subs[s];
              && |t.releases| + Pending(t) == |p.completions| <= |p.releases|
              && forall k :: 0 <= k < |t.releases| ==> t.releases[k] < p.releases[k] + st.period
  {
    hide Inv, LawInv, TimelyHead, Initial, Exec, Feasible, Timely;
    TimelyInitial(st);
    TimelyOfLaw(st);
    TimelyRunKeeps(st, run);
  }

  lemma {:induction false} EveryPeriod(times: seq<int>, period: int, k: nat)
    requires k < |times| && forall i :: 0 < i < |times| ==> times[i] == times[i - 1] + period
    ensures times[k] == times[0] + k * period
  {
    if k > 0 {
      EveryPeriod(times, period, k - 1);
    }
  }

  // The first subtask is strictly periodic; subtask s follows within s to s * (period - 1) ticks.
  lemma {:induction false} PeriodicRelease(st: State, run: seq<Event>, s: nat, k: nat)
    requires Initial(st) && Feasible(st, run) && Timely(st, run) && s < |st.subs|
    requires k < |Exec(st, run).subs[s].releases|
    ensures var subs := Exec(st, run).subs;
            && k < |subs[0].releases|
            && var due := subs[0].releases[0] + k * st.period;
               subs[0].releases[k] == due
               && due + s <= subs[s].releases[k] <= due + s * (st.period - 1)
  {
    hide Inv, Exec, Feasible, Timely, TimelySubtask, TimelyPair, Initial;
    var subs := Exec(st, run).subs;
    if s == 0 {
      TimelyInitial(st);
      TimelyRunKeeps(st, run);
      EveryPeriod(subs[0].releases, st.period, k);
    } else {
      Precedence(st, run, s - 1);
      LosslessChain(st, run, s);
      PeriodicRelease(st, run, s - 1, k);
      OneMore(s, st.period - 1);
    }
  }

  lemma OneMore(s: int, x: int)
    ensures s * x == (s - 1) * x + x
  {
  }

  // ---------- The release law ----------

  // A successor is due as soon as its predecessor has completed, but not within a period of its
  // own last release.
  function Due(p: Subtask, t: Subtask, period: int, k: nat): int
    requires k < |p.completions| && k <= |t.releases|
  {
    if k == 0 || p.completions[k] >= t.releases[k - 1] + period then p.completions[k]
    else t.releases[k - 1] + period
  }

  predicate DuePair(p: Subtask, t: Subtask, period: int, now: int) {
    && |t.releases| + Pending(t) <= |p.completions|
    && (forall k :: 0 <= k < |t.releases| ==> t.releases[k] == Due(p, t, period, k))
    && (t.phase == Woken ==> now == Due(p, t, period, |t.releases|))
    && (t.timer.Some? ==> t.timer.value == Due(p, t, period, |t.releases|))
  }

  predicate LawInv(st: State) {
    TimelyInv(st)
    && forall s :: 0 < s < |st.subs| ==> DuePair(st.subs[s - 1], st.subs[s], st.period, st.now)
  }

  lemma DueSameAt(p: Subtask, t: Subtask, q: Subtask, u: Subtask, period: int, k: nat)
    requires k < |p.completions| && k < |q.completions| && p.completions[k] == q.completions[k]
    requires k <= |t.releases| && k <= |u.releases| && (k > 0 ==> t.releases[k - 1] == u.releases[k - 1])
    ensures Due(p, t, period, k) == Due(q, u, period, k)
  {
  }

  lemma DueRelease(p: Subtask, t: Subtask, period: int, now: int)
    requires t.phase == Woken && Pending(t) <= 1 && DuePair(p, t, period, now)
    ensures DuePair(p, Release(t, now), period, now)
  {
    hide Due;
    forall k | 0 <= k <= |t.releases|
      ensures Due(p, Release(t, now), period, k) == Due(p, t, period, k)
    {
      DueSameAt(p, t, p, Release(t, now), period, k);
    }
  }

  // The last release time is zero exactly before the first release.
  predicate Remembers(t: Subtask) {
    if t.releases == [] then t.lastRelease == 0
    else t.lastRelease == t.releases[|t.releases| - 1] && t.lastRelease > 0
  }

  // What the guard does to a successor that is ready for it.
  lemma GuardOutcome(u: Subtask, period: int, now: int)
    requires Pending(u) == 0 && Remembers(u)
    requires u.phase == Sleeping || (u.releases != [] && now < u.lastRelease + period)
    ensures var v := ReleaseSuccessor(u, period, now);
            v.releases == u.releases
            && if u.releases == [] || now >= u.lastRelease + period then v.phase == Woken && v.timer == None
               else v.phase != Woken && v.timer == Some(u.lastRelease + period)
  {
  }

  lemma DueSuccessor(p: Subtask, q: Subtask, u: Subtask, period: int, now: int)
    requires DuePair(p, u, period, now) && Pending(u) == 0 && Remembers(u)
    requires |u.releases| == |p.completions| && q.completions == p.completions + [now]
    requires u.phase == Sleeping || (u.releases != [] && now < u.lastRelease + period)
    ensures DuePair(q, ReleaseSuccessor(u, period, now), period, now)
  {
    hide ReleaseSuccessor;
    var v, n := ReleaseSuccessor(u, period, now), |u.releases|;
    GuardOutcome(u, period, now);
    assert q.completions[n] == now;
    assert Due(q, v, period, n) == if n == 0 || now >= u.lastRelease + period then now else u.lastRelease + period;
    hide Due;
    forall k | 0 <= k < n
      ensures Due(q, v, period, k) == Due(p, u, period, k)
    {
      DueSameAt(p, u, q, v, period, k);
    }
  }

  // The predecessor's own end of job finds the successor asleep, or still inside its period.
  lemma SuccessorIsReady(p: Subtask, u: Subtask, period: int, now: int)
    requires p.phase == Running && SubtaskInv(p, period, now) && SubtaskInv(u, period, now)
    requires TimelyPair(p, u, period, now) && TimelySubtask(u, period, now)
    ensures Pending(u) == 0 && |u.releases| == |p.completions| && Remembers(u)
    ensures u.phase == Sleeping || (u.releases != [] && now < u.lastRelease + period)
  {
  }

  lemma DueFire(p: Subtask, t: Subtask, period: int, now: int)
    requires t.timer.Some? && t.timer.value == now && t.phase != Woken && DuePair(p, t, period, now)
    ensures DuePair(p, Wake(t.(timer := None)), period, now)
  {
    var u := Wake(t.(timer := None));
    assert forall k :: 0 <= k <= |t.releases| ==> Due(p, u, period, k) == Due(p, t, period, k);
  }

  // The law looks at the predecessor's completions and the successor's releases and promises only.
  lemma DueSame(p: Subtask, t: Subtask, q: Subtask, u: Subtask, period: int, now: int)
    requires DuePair(p, t, period, now) && q.completions == p.completions
    requires u.releases == t.releases && u.timer == t.timer && (u.phase == Woken ==> t.phase == Woken)
    ensures DuePair(q, u, period, now)
  {
    assert forall k :: 0 <= k <= |t.releases| && k < |p.completions| ==> Due(q, u, period, k) == Due(p, t, period, k);
  }

  // An event at subtask s leaves the law alone everywhere but at the links of s.
  lemma LawElsewhere(before: State, after: State, s: nat)
    requires LawInv(before) && TimelyInv(after) && |after.subs| == |before.subs|
    requires after.period == before.period && after.now == before.now
    requires forall k :: 0 <= k < |before.subs| && k != s && k != s + 1 ==> after.subs[k] == before.subs[k]
    requires 0 < s < |before.subs| ==> DuePair(before.subs[s - 1], after.subs[s], before.period, before.now)
    requires s + 1 < |before.subs| ==> DuePair(after.subs[s], after.subs[s + 1], before.period, before.now)
    requires s + 1 < |before.subs| ==> after.subs[s + 1].completions == before.subs[s + 1].completions
    ensures LawInv(after)
  {
    hide TimelyInv, DuePair;
    forall k | 0 < k < |after.subs|
      ensures DuePair(after.subs[k - 1], after.subs[k], after.period, after.now)
    {
      if k - 1 == s + 1 {
        DueSame(before.subs[k - 1], before.subs[k], after.subs[k - 1], after.subs[k], after.period, after.now);
      }
    }
  }

  lemma LawDispatch(st: State, s: nat)
    requires LawInv(st) && Enabled(st, Dispatch(s))
    ensures LawInv(Apply(st, Dispatch(s)))
  {
    hide DuePair, Inv, TimelyPair, TimelyHead;
    var after, t := Apply(st, Dispatch(s)), st.subs[s];
    TimelyDispatchKeeps(st, s);
    if s > 0 {
      DueRelease(st.subs[s - 1], t, st.period, st.now);
    }
    if s + 1 < |st.subs| {
      DueSame(t, st.subs[s + 1], after.subs[s], st.subs[s + 1], st.period, st.now);
    }
    LawElsewhere(st, after, s);
  }

  lemma LawComplete(st: State, s: nat)
    requires LawInv(st) && Enabled(st, Complete(s))
    ensures LawInv(Apply(st, Complete(s)))
  {
    hide DuePair, TimelyPair, TimelySubtask, TimelyHead, SubtaskInv, PairInv, ReleaseSuccessor;
    var after, t := Apply(st, Complete(s)), st.subs[s];
    TimelyCompleteKeeps(st, s);
    if s > 0 {
      DueSame(st.subs[s - 1], t, st.subs[s - 1], after.subs[s], st.period, st.now);
    }
    if s + 1 < |st.subs| {
      var u := st.subs[s + 1];
      assert TimelyPair(st.subs[s + 1 - 1], u, st.period, st.now);
      assert DuePair(st.subs[s + 1 - 1], u, st.period, st.now);
      SuccessorIsReady(t, u, st.period, st.now);
      DueSuccessor(t, after.subs[s], u, st.period, st.now);
      TimelySuccessor(t, s == 0, u, st.period, st.now);
    }
    LawElsewhere(st, after, s);
  }

  lemma LawFire(st: State, s: nat)
    requires LawInv(st) && Enabled(st, Fire(s))
    ensures LawInv(Apply(st, Fire(s)))
  {
    hide DuePair, TimelyPair, TimelyHead, PairInv, Spaced;
    var after, t := Apply(st, Fire(s)), st.subs[s];
    TimelyFireKeeps(st, s);
    assert TimelySubtask(t, st.period, st.now) && SubtaskInv(t, st.period, st.now);
    if s > 0 {
      DueFire(st.subs[s - 1], t, st.period, st.now);
    }
    if s + 1 < |st.subs| {
      DueSame(t, st.subs[s + 1], after.subs[s], st.subs[s + 1], st.period, st.now);
    }
    LawElsewhere(st, after, s);
  }

  lemma LawStepKeeps(st: State, e: Event)
    requires LawInv(st) && Enabled(st, e) && (e == Tick ==> TimelyTick(st))
    ensures LawInv(Apply(st, e))
  {
    hide TimelyInv, DuePair;
    match e
    case StartAll =>
      var after := Apply(st, StartAll);
      TimelyStartKeeps(st);
      if |st.subs| > 1 {
        DueSame(st.subs[0], st.subs[1], after.subs[0], st.subs[1], st.period, st.now);
      }
      LawElsewhere(st, after, 0);
    case Dispatch(s) => LawDispatch(st, s);
    case Complete(s) => LawComplete(st, s);
    case Fire(s) => LawFire(st, s);
    case Tick =>
      TimelyTickKeeps(st);
      forall k | 0 < k < |st.subs|
        ensures DuePair(st.subs[k - 1], st.subs[k], st.period, st.now + 1)
      {
        assert st.subs[k] in st.subs;
        DueLater(st.subs[k - 1], st.subs[k], st.period, st.now);
      }
  }

  lemma DueLater(p: Subtask, t: Subtask, period: int, now: int)
    requires DuePair(p, t, period, now) && t.phase != Woken
    ensures DuePair(p, t, period, now + 1)
  {
  }

  lemma {:induction false} LawRunKeeps(st: State, run: seq<Event>)
    requires LawInv(st) && Feasible(st, run) && Timely(st, run)
    ensures LawInv(Exec(st, run))
    decreases |run|
  {
    if run != [] {
      hide LawInv, Apply, Enabled;
      LawRunKeeps(st, Front(run));
      LawStepKeeps(Exec(st, Front(run)), run[|run| - 1]);
    }
  }

  // In a timely run every release of a successor happens exactly when the law says.
  lemma ReleaseLaw(st: State, run: seq<Event>, s: nat, k: nat)
    requires Initial(st) && Feasible(st, run) && Timely(st, run) && 0 < s < |st.subs|
    requires k < |Exec(st, run).subs[s].releases|
    ensures var p, t := Exec(st, run).subs[s - 1], Exec(st, run).subs[s];
            k < |p.completions| && t.releases[k] == Due(p, t, st.period, k)
  {
    TimelyInitial(st);
    LawRunKeeps(st, run);
    assert DuePair(Exec(st, run).subs[s - 1], Exec(st, run).subs[s], st.period, Exec(st, run).now);
  }

  // ---------- Time goes on, and releases come ----------

  // An event that works off the backlog, or the tick when there is none.
  lemma TimelyNeverStuck(st: State) returns (e: Event)
    requires TimelyInv(st) && st.period >= 2
    ensures Enabled(st, e) && e != StartAll
    ensures if e == Tick then TimelyTick(st) else Apply(st, e).now == st.now && Behind(Apply(st, e)) < Behind(st)
  {
    hide PairInv, Spaced, TimelyPair, TimelyHead, SubtaskInv, Backlog;
    if s :| 0 <= s < |st.subs| && st.subs[s].phase == Woken {
      e := Dispatch(s);
      BacklogWith(st.subs, s, Release(st.subs[s], st.now), st.period, st.now);
    } else if s :| 0 <= s < |st.subs| && st.subs[s].timer.Some? && st.subs[s].timer.value <= st.now {
      e := Fire(s);
      BacklogWith(st.subs, s, Wake(st.subs[s].(timer := None)), st.period, st.now);
    } else if s :| 0 <= s < |st.subs| && st.subs[s].phase == Running
                   && st.now + 1 >= st.subs[s].lastRelease + st.period {
      assert TimelySubtask(st.subs[s], st.period, st.now);
      e := Complete(s);
      CompleteWorksOff(st, s);
    } else {
      e := Tick;
    }
  }

  function Behind(st: State): nat {
    Backlog(st.subs, st.period, st.now)
  }

  // A late job makes way for one wake at most.
  lemma CompleteWorksOff(st: State, s: nat)
    requires Enabled(st, Complete(s)) && TimelySubtask(st.subs[s], st.period, st.now)
    requires st.now + 1 >= st.subs[s].lastRelease + st.period
    ensures Behind(Apply(st, Complete(s))) < Behind(st)
  {
    hide Backlog;
    var done := FinishJob(st.subs[s], s == 0, st.period, st.now);
    var subs := st.subs[s := done];
    BacklogWith(st.subs, s, done, st.period, st.now);
    if s + 1 < |subs| {
      BacklogWith(subs, s + 1, ReleaseSuccessor(subs[s + 1], st.period, st.now), st.period, st.now);
    }
  }

  lemma {:induction false} TimelyContinue(st: State, run: seq<Event>, rest: seq<Event>)
    requires Feasible(st, run) && Timely(st, run) && Feasible(Exec(st, run), rest) && Timely(Exec(st, run), rest)
    ensures Feasible(st, run + rest) && Timely(st, run + rest)
    decreases |rest|
  {
    hide Enabled, Apply, TimelyTick;
    Continue(st, run, rest);
    if rest == [] {
      assert run + rest == run;
    } else {
      TimelyContinue(st, run, Front(rest));
      Continue(st, run, Front(rest));
      assert Front(run + rest) == run + Front(rest);
    }
  }

  lemma TimelyFirstStep(st: State, e: Event, rest: seq<Event>)
    requires Enabled(st, e) && (e == Tick ==> TimelyTick(st))
    requires Feasible(Apply(st, e), rest) && Timely(Apply(st, e), rest)
    ensures Feasible(st, [e] + rest) && Timely(st, [e] + rest)
    ensures Exec(st, [e] + rest) == Exec(Apply(st, e), rest)
  {
    hide Enabled, Apply, TimelyTick;
    FirstStep(st, e, rest);
    assert Front([e]) == [];
    TimelyContinue(st, [e], rest);
  }

  // From every timely state the clock can be brought to any later time without being late.
  lemma {:induction false} TimePasses(st: State, time: int) returns (rest: seq<Event>)
    requires TimelyInv(st) && st.period >= 2 && time >= st.now
    ensures Feasible(st, rest) && Timely(st, rest) && Exec(st, rest).now == time
    decreases time - st.now, Behind(st)
  {
    hide TimelyInv, TimelyTick, Behind;
    if time == st.now {
      rest := [];
    } else {
      var e := TimelyNeverStuck(st);
      TimelyStepKeeps(st, e);
      var later := TimePasses(Apply(st, e), time);
      TimelyFirstStep(st, e, later);
      rest := [e] + later;
    }
  }

  // Every timely run has a timely continuation to any later time.
  lemma TimelyGoesOn(st: State, run: seq<Event>, time: int) returns (rest: seq<Event>)
    requires Initial(st) && st.period >= 2 && Feasible(st, run) && Timely(st, run)
    requires time >= Exec(st, run).now
    ensures Feasible(st, run + rest) && Timely(st, run + rest) && Exec(st, run + rest).now == time
  {
    hide TimelyInv, TimelyTick, LawInv;
    TimelyInitial(st);
    TimelyOfLaw(st);
    TimelyRunKeeps(st, run);
    rest := TimePasses(Exec(st, run), time);
    TimelyContinue(st, run, rest);
    Continue(st, run, rest);
  }

  lemma TimelyOfLaw(st: State)
    requires LawInv(st)
    ensures TimelyInv(st)
  {
  }

  // One period after its last release the first subtask has been released again.
  lemma HeadKeepsPace(t: Subtask, started: bool, period: int, now: int)
    requires SubtaskInv(t, period, now) && TimelySubtask(t, period, now) && TimelyHead(t, started, period, now)
    requires t.releases != [] && started
    ensures now <= t.lastRelease + period
  {
  }

  // One period after its predecessor's k-th release a successor has had its own.
  lemma SuccessorKeepsPace(p: Subtask, t: Subtask, period: int, now: int, k: nat)
    requires SubtaskInv(p, period, now) && TimelySubtask(p, period, now)
    requires SubtaskInv(t, period, now) && TimelyPair(p, t, period, now)
    requires k < |p.releases| && now >= p.releases[k] + period
    ensures k < |t.releases|
  {
  }

  // Releases come: once the time at which the k-th release of subtask s is due at the latest has
  // passed, it has taken place.
  lemma {:induction false} ReleasesCome(st: State, run: seq<Event>, s: nat, k: nat)
    requires Initial(st) && Feasible(st, run) && Timely(st, run) && s < |st.subs|
    requires Exec(st, run).subs[0].releases != []
    requires Exec(st, run).now > Exec(st, run).subs[0].releases[0] + k * st.period + s * (st.period - 1)
    ensures k < |Exec(st, run).subs[s].releases|
    decreases s
  {
    hide Feasible, Exec, Timely, TimelyPair, TimelyHead, SubtaskInv, TimelySubtask, Initial;
    var after := Exec(st, run);
    TimelyInitial(st);
    TimelyRunKeeps(st, run);
    if s == 0 {
      HeadComes(after, k);
    } else {
      OneMore(s, st.period - 1);
      ReleasesCome(st, run, s - 1, k);
      PeriodicRelease(st, run, s - 1, k);
      SuccessorKeepsPace(after.subs[s - 1], after.subs[s], st.period, after.now, k);
    }
  }

  lemma HeadComes(st: State, k: nat)
    requires TimelyInv(st) && |st.subs| > 0 && st.subs[0].releases != []
    requires st.now > st.subs[0].releases[0] + k * st.period
    ensures k < |st.subs[0].releases|
  {
    hide PairInv, Spaced, TimelyPair;
    var t := st.subs[0];
    var last := |t.releases| - 1;
    EveryPeriod(t.releases, st.period, last);
    HeadKeepsPace(t, st.started, st.period, st.now);
    if k >= |t.releases| {
      AtLeast(k, last + 1, st.period);
    }
  }

  lemma AtLeast(k: int, n: int, x: int)
    requires k >= n && x >= 0
    ensures k * x >= n * x
  {
  }
}
