// The largest period in place of a hyper period: when the placement keeps every core within its
// capacity, and the smallest table with which it does not.
module HyperPeriod {
  import opened Words
  import opened Sequences
  import opened Permutations
  import opened TaskSet
  import opened Deadlines
  import opened Placement
  import opened Initialisation

  // A whole table over these periods, the largest being the limit, with its pointers by decreasing
  // utilisation.
  predicate TableOver(periods: set<nat>, limit: nat, tasks: seq<Task>, subs: seq<Subtask>, order: seq<nat>) {
    && Layout(tasks, subs, |subs|) && IsMaxPeriod(tasks, limit)
    && (forall i :: 0 <= i < |tasks| ==> tasks[i].period in periods)
    && IsPermutation(order, |subs|) && Placeable(tasks, subs, order)
    && forall i, k :: 0 <= i < k < |order| ==>
         subs[order[i]].exeTime * tasks[subs[order[k]].taskId].period
         >= subs[order[k]].exeTime * tasks[subs[order[i]].taskId].period
  }

  // The exact load that the placement gives core c, in units of the limit's period.
  function UsedBy(tasks: seq<Task>, subs: seq<Subtask>, order: seq<nat>, limit: nat, cores: nat, c: nat): real
    requires Placeable(tasks, subs, order) && c < cores
  {
    CoreExact(ExactLoadsOf(tasks, subs, order, limit), Place(LoadsOf(tasks, subs, order, limit), cores, limit).cores, c)
  }

  predicate Flagged(tasks: seq<Task>, subs: seq<Subtask>, order: seq<nat>, limit: nat, cores: nat)
    requires Placeable(tasks, subs, order) && cores > 0
  {
    Invalid(Place(LoadsOf(tasks, subs, order, limit), cores, limit))
  }

  // No placement that is not flagged overloads a core, whatever the table over these periods.
  ghost predicate NeverOverloaded(periods: set<nat>, limit: nat) {
    forall tasks: seq<Task>, subs: seq<Subtask>, order: seq<nat>, cores: nat, c: nat ::
      TableOver(periods, limit, tasks, subs, order) && c < cores && !Flagged(tasks, subs, order, limit, cores)
      ==> UsedBy(tasks, subs, order, limit, cores, c) <= limit as real
  }

  // An unflagged placement is within capacity for every table over some periods if and only if each
  // of them divides the largest one, that is if the largest period is a hyper period.
  lemma LargestPeriodSuffices(periods: set<nat>, limit: nat)
    requires limit in periods && forall p :: p in periods ==> 0 < p <= limit
    ensures NeverOverloaded(periods, limit) <==> forall p :: p in periods ==> limit % p == 0
  {
    hide Layout, IsMaxPeriod, IsPermutation, UsedBy, Flagged;
    if forall p :: p in periods ==> limit % p == 0 {
      forall tasks: seq<Task>, subs: seq<Subtask>, order: seq<nat>, cores: nat, c: nat
        | TableOver(periods, limit, tasks, subs, order) && c < cores && !Flagged(tasks, subs, order, limit, cores)
        ensures UsedBy(tasks, subs, order, limit, cores, c) <= limit as real
      {
        DividingPeriods(periods, limit, tasks, subs, order, cores, c);
      }
    } else {
      var p :| p in periods && limit % p != 0;
      OverloadedUnflagged(periods, p, limit, 1);
    }
  }

  lemma DividingPeriods(periods: set<nat>, limit: nat, tasks: seq<Task>, subs: seq<Subtask>, order: seq<nat>,
                        cores: nat, c: nat)
    requires c < cores && TableOver(periods, limit, tasks, subs, order)
    requires !Flagged(tasks, subs, order, limit, cores)
    requires forall p :: p in periods ==> p > 0 && limit % p == 0
    ensures UsedBy(tasks, subs, order, limit, cores, c) <= limit as real
  {
    hide Place, CoreExact, CoreCount, ExactLoadsOf, LoadsOf, Invalid, IsPermutation;
    forall i | 0 <= i < |order|
      ensures subs[order[i]].exeTime * limit % tasks[subs[order[i]].taskId].period == 0
    {
      assert tasks[subs[order[i]].taskId].period in periods;
      MultipleOfPeriod(subs[order[i]].exeTime, limit, tasks[subs[order[i]].taskId].period);
    }
    ExactUtilisation(tasks, subs, order, limit, cores, c);
  }

  lemma MultipleOfPeriod(e: nat, limit: nat, p: nat)
    requires p > 0 && limit % p == 0
    ensures e * limit % p == 0
  {
    var q := limit / p;
    Reorder(p, q, e);
    QuotientUnique(e * limit, p, e * q, 0);
  }

  // ---------- The table that is overloaded ----------

  lemma Quotient(limit: nat, p: nat)
    requires p > 0
    ensures limit / p <= limit && p * (limit / p) <= limit
    ensures limit % p != 0 ==> p >= 2 && p * (limit / p) < limit && limit / p < limit
  {
    var q := limit / p;
    assert limit == p * q + limit % p;
    ScaleOrder(q, 1, p);
  }

  // One subtask of one unit with the short period, and one that fills what its rounded load leaves.
  function ShortAndLong(p: nat, limit: nat): seq<Task> {
    [Task(p, 1, 0, 0), Task(limit, 1, 1, 0)]
  }

  function UnitAndRest(p: nat, limit: nat): (subs: seq<Subtask>)
    requires p > 0
    ensures |subs| == 2
  {
    Quotient(limit, p);
    [Subtask(0, 0, 1, 0, 0, 0, 0), Subtask(1, 0, limit - limit / p, 0, 0, 0, 0)]
  }

  lemma IsTable(periods: set<nat>, p: nat, limit: nat)
    requires p in periods && limit in periods && 0 < p <= limit && limit % p != 0
    ensures TableOver(periods, limit, ShortAndLong(p, limit), UnitAndRest(p, limit), [1, 0])
  {
    var tasks, subs := ShortAndLong(p, limit), UnitAndRest(p, limit);
    Quotient(limit, p);
    assert Identity(2) == [0, 1];
    assert tasks[1].period == limit;
    LongUtil(p, limit, limit / p);
  }

  lemma LongUtil(p: nat, limit: nat, q: nat)
    requires p >= 2 && p * q < limit && q <= limit
    ensures (limit - q) * p >= 1 * limit
  {
    ScaleOrder(limit, 2, p);
    assert (limit - q) * p == limit * p - p * q;
  }

  lemma TwoFit(a: nat, b: nat, cores: nat, limit: nat)
    requires a + b <= limit && cores > 0
    ensures Place([a, b], cores, limit).cores == [0, 0] && !Invalid(Place([a, b], cores, limit))
  {
    assert Front([a, b]) == [a] && Front([a]) == [];
    var empty := Place([], cores, limit);
    var one := PlaceOne(empty, a, limit);
    assert Place([a], cores, limit) == one;
    assert FirstFit(empty.agg, a, limit) == 0 && FirstFit(one.agg, b, limit) == 0;
  }

  lemma TwoOnCore(x: real, y: real)
    ensures CoreExact([x, y], [0, 0], 0) == x + y
  {
    assert Front([x, y]) == [x] && Front([x]) == [];
    assert Front([0, 0]) == [0] && Front([0]) == [];
    assert CoreExact([x], [0], 0) == x;
  }

  // A fraction that is not whole is above its floor.
  lemma AboveFloor(w: nat, p: nat, q: nat)
    requires p > 0 && p * q < w
    ensures w as real / p as real > q as real
  {
    var x := w as real / p as real;
    assert x * p as real == w as real;
    assert (p * q) as real == q as real * p as real;
    if x <= q as real {
      RealOrder(x, q as real, p as real);
    }
  }

  lemma ItsLoads(p: nat, limit: nat)
    requires 0 < p <= limit && limit % p != 0
    ensures var tasks, subs, q := ShortAndLong(p, limit), UnitAndRest(p, limit), limit / p;
            && q <= limit
            && ScaledLoad(subs[1], tasks[1], limit) == limit - q && ScaledLoad(subs[0], tasks[0], limit) == q
            && ExactLoad(subs[1], tasks[1], limit) == (limit - q) as real
            && ExactLoad(subs[0], tasks[0], limit) > q as real
  {
    Quotient(limit, p);
    var tasks, subs, q := ShortAndLong(p, limit), UnitAndRest(p, limit), limit / p;
    assert limit * (limit - q) == (limit - q) * limit;
    QuotientUnique((limit - q) * limit, limit, limit - q, 0);
    LoadIsFloor(subs[1], tasks[1], limit);
    AboveFloor(limit, p, q);
  }

  // However many cores there are, both subtasks are placed on core 0, which they overload, and the
  // case is not flagged.
  lemma OverloadedUnflagged(periods: set<nat>, p: nat, limit: nat, cores: nat)
    requires p in periods && limit in periods && 0 < p <= limit && limit % p != 0 && cores > 0
    ensures var tasks, subs := ShortAndLong(p, limit), UnitAndRest(p, limit);
            && TableOver(periods, limit, tasks, subs, [1, 0])
            && !Flagged(tasks, subs, [1, 0], limit, cores)
            && UsedBy(tasks, subs, [1, 0], limit, cores, 0) > limit as real
  {
    hide Place, Invalid, CoreExact, ScaledLoad, ExactLoad;
    var tasks, subs, q := ShortAndLong(p, limit), UnitAndRest(p, limit), limit / p;
    IsTable(periods, p, limit);
    ItsLoads(p, limit);
    TwoFit(limit - q, q, cores, limit);
    assert LoadsOf(tasks, subs, [1, 0], limit) == [limit - q, q];
    var short := ExactLoad(subs[0], tasks[0], limit);
    assert ExactLoadsOf(tasks, subs, [1, 0], limit) == [(limit - q) as real, short];
    TwoOnCore((limit - q) as real, short);
  }

  lemma Products(a: nat, b: nat, c: nat)
    requires a <= 4294 && b < 0x1_0000 && c <= 4294
    ensures (a + 1) * b < 0x1_0000_0000 && b * a < 0x1_0000_0000 && 0 <= b * a * c < 0x8000_0000_0000_0000
  {
    ScaleOrder(b, a, 4294);
    ScaleOrder(c, b * a, 4294 * b);
    ScaleOrder(4294 * b, c, 4294);
    assert (a + 1) * b == b * a + b;
  }

  lemma ItsTimes(p: nat, limit: nat, i: nat)
    requires 0 < p <= limit && limit % p != 0 && i < 2
    ensures var tasks, subs := ShortAndLong(p, limit), UnitAndRest(p, limit);
            && Layout(tasks, subs, 2) && subs[i].taskId == i
            && SubtaskFits(tasks, subs, i) && TaskFits(tasks, subs, 2, i)
            && CumulativeTime(tasks, subs, i) == TaskTime(tasks, subs, 2, i) == subs[i].exeTime
            && 0 < subs[i].exeTime <= limit - limit / p
  {
    Quotient(limit, p);
    var subs := UnitAndRest(p, limit);
    assert ExeSum(subs, i, 1) == ExeSum(subs, i, 0) + subs[i].exeTime;
  }

  lemma ItsProductsFit(p: nat, limit: nat, i: nat, k: nat)
    requires 0 < p <= limit < 0x1_0000 && limit % p != 0 && limit - limit / p <= 4294 && i < 2 && k < 2
    ensures var tasks, subs := ShortAndLong(p, limit), UnitAndRest(p, limit);
            && Layout(tasks, subs, 2) && TaskFits(tasks, subs, 2, i)
            && (subs[i].exeTime + 1) * tasks[k].period < 0x1_0000_0000
            && tasks[i].period * TaskTime(tasks, subs, 2, i) < 0x1_0000_0000
            && DeadlineProductFits(tasks, subs, 2, i, k)
  {
    hide CumulativeTime, TaskTime, Layout, SubtaskFits, TaskFits, UnitAndRest;
    var tasks, subs := ShortAndLong(p, limit), UnitAndRest(p, limit);
    ItsTimes(p, limit, i);
    ItsTimes(p, limit, k);
    Products(subs[i].exeTime, tasks[k].period, 1);
    Products(subs[i].exeTime, tasks[i].period, subs[k].exeTime);
  }

  // It is a table like any other: with periods below 2^16 and execution times whose nanoseconds fit
  // 32 bits, no arithmetic on it leaves its width.
  lemma OverloadedFits(p: nat, limit: nat)
    requires 0 < p <= limit < 0x1_0000 && limit % p != 0 && limit - limit / p <= 4294
    ensures Layout(ShortAndLong(p, limit), UnitAndRest(p, limit), 2)
    ensures TablesFit(ShortAndLong(p, limit), UnitAndRest(p, limit), 2)
  {
    hide CumulativeTime, TaskTime, Layout, SubtaskFits, TaskFits, UnitAndRest, DeadlineProductFits;
    var tasks, subs := ShortAndLong(p, limit), UnitAndRest(p, limit);
    ItsTimes(p, limit, 0);
    forall i | 0 <= i < 2
      ensures TaskFits(tasks, subs, 2, i) && subs[i].exeTime <= 4294
      ensures TaskTime(tasks, subs, 2, i) < 0x1_0000_0000
      ensures tasks[i].period * TaskTime(tasks, subs, 2, i) < 0x1_0000_0000
    {
      ItsTimes(p, limit, i);
      ItsProductsFit(p, limit, i, i);
    }
    forall i, k | 0 <= i < 2 && 0 <= k < 2
      ensures (subs[i].exeTime + 1) * tasks[k].period < 0x1_0000_0000
      ensures DeadlineProductFits(tasks, subs, 2, i, k)
    {
      ItsProductsFit(p, limit, i, k);
    }
  }
}
