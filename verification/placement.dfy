// First-fit placement of subtasks on cores.
module Placement {
  import opened Words
  import opened TaskSet
  import opened Wrappers
  import opened Sequences

  // ---------- First fit on loads ----------

  // Final core loads, and for each item its core and whether it was rejected.
  datatype Outcome = Outcome(agg: seq<nat>, cores: seq<nat>, rejected: seq<bool>)

  // The lowest core with room for the load, or the number of cores when none has.
  function FirstFit(agg: seq<nat>, load: nat, limit: nat): (j: nat)
    ensures j <= |agg|
    ensures j < |agg| ==> agg[j] + load <= limit
    ensures forall k :: 0 <= k < j ==> agg[k] + load > limit
  {
    if agg == [] || agg[0] + load <= limit then 0 else 1 + FirstFit(agg[1..], load, limit)
  }

  function PlaceOne(out: Outcome, load: nat, limit: nat): (r: Outcome)
    requires |out.agg| > 0
    ensures |r.agg| == |out.agg|
    ensures |r.cores| == |out.cores| + 1 && |r.rejected| == |out.rejected| + 1
  {
    var j := FirstFit(out.agg, load, limit);
    if j < |out.agg| then
      Outcome(out.agg[j := out.agg[j] + load], out.cores + [j], out.rejected + [false])
    else
      // A rejected item is charged to core 0, which is then declared full.
      Outcome(out.agg[0 := limit], out.cores + [0], out.rejected + [true])
  }

  function Place(loads: seq<nat>, cores: nat, limit: nat): (out: Outcome)
    requires cores > 0
    ensures |out.agg| == cores && |out.cores| == |loads| && |out.rejected| == |loads|
  {
    if loads == [] then Outcome(seq(cores, _ => 0), [], [])
    else PlaceOne(Place(Front(loads), cores, limit), Last(loads), limit)
  }

  // The flag that marks an unschedulable case.
  predicate Invalid(out: Outcome) {
    true in out.rejected
  }

  function Sum(s: seq<nat>): nat {
    if s == [] then 0 else Sum(Front(s)) + Last(s)
  }

  // The load that the items placed on core c bring with them.
  function CoreLoad(loads: seq<nat>, cores: seq<nat>, c: nat): nat
    requires |loads| == |cores|
  {
    if loads == [] then 0
    else CoreLoad(Front(loads), Front(cores), c) + (if Last(cores) == c then Last(loads) else 0)
  }

  // ---------- What first fit achieves ----------

  // Every item has a core, and no core exceeds the limit.
  predicate InBounds(out: Outcome, limit: nat) {
    && (forall j :: 0 <= j < |out.agg| ==> out.agg[j] <= limit)
    && (forall i :: 0 <= i < |out.cores| ==> out.cores[i] < |out.agg|)
  }

  lemma {:induction false} PlacementInBounds(loads: seq<nat>, cores: nat, limit: nat)
    requires cores > 0
    ensures InBounds(Place(loads, cores, limit), limit)
  {
    if loads != [] {
      PlacementInBounds(Front(loads), cores, limit);
    }
  }

  // A placed item has its room and fits on no lower core; a rejected item fits on none.
  predicate FirstFitItem(agg: seq<nat>, core: nat, rejected: bool, load: nat, limit: nat) {
    && (!rejected ==> core < |agg| && agg[core] >= load)
    && (forall j :: 0 <= j < |agg| && (rejected || j < core) ==> agg[j] + load > limit)
  }

  lemma PlaceOneKeepsItem(out: Outcome, next: nat, core: nat, rejected: bool, load: nat, limit: nat)
    requires |out.agg| > 0 && InBounds(out, limit)
    requires FirstFitItem(out.agg, core, rejected, load, limit)
    ensures FirstFitItem(PlaceOne(out, next, limit).agg, core, rejected, load, limit)
  {
  }

  // First fit seen from the end of the placement.
  lemma {:induction false} PlacementIsFirstFit(loads: seq<nat>, cores: nat, limit: nat, i: nat)
    requires cores > 0 && i < |loads|
    ensures var out := Place(loads, cores, limit);
            FirstFitItem(out.agg, out.cores[i], out.rejected[i], loads[i], limit)
  {
    var before := Place(Front(loads), cores, limit);
    PlacementInBounds(Front(loads), cores, limit);
    if i < |loads| - 1 {
      PlacementIsFirstFit(Front(loads), cores, limit, i);
      PlaceOneKeepsItem(before, Last(loads), before.cores[i], before.rejected[i], loads[i], limit);
    }
  }

  // A rejected item is put on core 0, which stays full from then on.
  lemma {:induction false} RejectedOnCoreZero(loads: seq<nat>, cores: nat, limit: nat, i: nat)
    requires cores > 0 && i < |loads| && Place(loads, cores, limit).rejected[i]
    ensures Place(loads, cores, limit).cores[i] == 0 && Place(loads, cores, limit).agg[0] == limit
  {
    PlacementInBounds(Front(loads), cores, limit);
    if i < |loads| - 1 {
      RejectedOnCoreZero(Front(loads), cores, limit, i);
    }
  }

  // Rejected or not, every other core holds exactly the items placed there.
  lemma {:induction false} OtherCoresConserve(loads: seq<nat>, cores: nat, limit: nat, c: nat)
    requires 0 < c < cores
    ensures Place(loads, cores, limit).agg[c] == CoreLoad(loads, Place(loads, cores, limit).cores, c)
  {
    if loads != [] {
      hide Place, FirstFit;
      PlaceLast(loads, cores, limit);
      OtherCoresConserve(Front(loads), cores, limit, c);
      var before, after := Place(Front(loads), cores, limit), Place(loads, cores, limit);
      assert Front(after.cores) == before.cores;
    }
  }

  lemma PlaceLast(loads: seq<nat>, cores: nat, limit: nat)
    requires loads != [] && cores > 0
    ensures Place(loads, cores, limit) == PlaceOne(Place(Front(loads), cores, limit), Last(loads), limit)
  {
  }

  // Two cores that both hold a placed item exceed the limit together.
  lemma UsedCoresExceedLimit(loads: seq<nat>, cores: nat, limit: nat, i: nat, k: nat)
    requires cores > 0 && i < |loads| && k < |loads|
    requires var out := Place(loads, cores, limit);
             !out.rejected[k] && out.cores[i] < out.cores[k]
    ensures var out := Place(loads, cores, limit);
            out.cores[k] < cores && out.agg[out.cores[i]] + out.agg[out.cores[k]] > limit
  {
    PlacementIsFirstFit(loads, cores, limit, k);
  }

  lemma NoRejection(loads: seq<nat>, cores: nat, limit: nat)
    requires cores > 0 && loads != [] && !Invalid(Place(loads, cores, limit))
    ensures var before := Place(Front(loads), cores, limit);
            !Invalid(before) && FirstFit(before.agg, Last(loads), limit) < cores
  {
    hide FirstFit;
    var before := Place(Front(loads), cores, limit);
    var out := PlaceOne(before, Last(loads), limit);
    assert forall i :: 0 <= i < |before.rejected| ==> before.rejected[i] == out.rejected[i];
    assert !out.rejected[|loads| - 1];
  }

  // Without a rejection a core's load is exactly the loads of the items placed there.
  lemma {:induction false} PlacementConserves(loads: seq<nat>, cores: nat, limit: nat, c: nat)
    requires c < cores && !Invalid(Place(loads, cores, limit))
    ensures var out := Place(loads, cores, limit);
            out.agg[c] == CoreLoad(loads, out.cores, c)
  {
    hide Invalid, FirstFit;
    if loads != [] {
      NoRejection(loads, cores, limit);
      PlacementConserves(Front(loads), cores, limit, c);
      assert Front(Place(loads, cores, limit).cores) == Place(Front(loads), cores, limit).cores;
    }
  }

  lemma {:induction false} PlacementConservesTotal(loads: seq<nat>, cores: nat, limit: nat)
    requires cores > 0 && !Invalid(Place(loads, cores, limit))
    ensures Sum(Place(loads, cores, limit).agg) == Sum(loads)
  {
    hide Invalid, FirstFit, PlaceOne;
    if loads == [] {
      SumOfZeros(Place(loads, cores, limit).agg);
    } else {
      var before := Place(Front(loads), cores, limit);
      hide Place;
      PlaceLast(loads, cores, limit);
      NoRejection(loads, cores, limit);
      PlacementConservesTotal(Front(loads), cores, limit);
      PlacedAddsUp(before, Last(loads), limit);
    }
  }

  lemma PlacedAddsUp(out: Outcome, load: nat, limit: nat)
    requires |out.agg| > 0 && FirstFit(out.agg, load, limit) < |out.agg|
    ensures Sum(PlaceOne(out, load, limit).agg) == Sum(out.agg) + load
  {
    hide FirstFit, Sum;
    SumUpdate(out.agg, FirstFit(out.agg, load, limit), load);
  }

  lemma {:induction false} SumOfZeros(s: seq<nat>)
    requires forall i :: 0 <= i < |s| ==> s[i] == 0
    ensures Sum(s) == 0
  {
    if s != [] {
      SumOfZeros(Front(s));
    }
  }

  lemma {:induction false} SumUpdate(s: seq<nat>, j: nat, x: nat)
    requires j < |s|
    ensures Sum(s[j := s[j] + x]) == Sum(s) + x
  {
    var t := s[j := s[j] + x];
    if j == |s| - 1 {
      assert Front(t) == Front(s);
    } else {
      SumUpdate(Front(s), j, x);
      assert Front(t) == Front(s)[j := s[j] + x];
    }
  }

  // ---------- The first-fit-decreasing guarantee ----------

  predicate Decreasing(loads: seq<nat>) {
    forall i, k :: 0 <= i < k < |loads| ==> loads[i] >= loads[k]
  }

  // In decreasing order a core in use holds at least as much as the latest item.
  lemma {:induction false} UsedCoreHoldsLatest(loads: seq<nat>, cores: nat, limit: nat)
    requires cores > 0 && loads != [] && Decreasing(loads) && !Invalid(Place(loads, cores, limit))
    ensures var agg := Place(loads, cores, limit).agg;
            forall j :: 0 <= j < cores ==> agg[j] == 0 || agg[j] >= Last(loads)
  {
    hide Invalid, FirstFit;
    NoRejection(loads, cores, limit);
    if |loads| > 1 {
      UsedCoreHoldsLatest(Front(loads), cores, limit);
      assert loads[|loads| - 2] >= Last(loads);
    }
  }

  lemma {:induction false} SumAtLeast(s: seq<nat>, x: nat)
    requires forall j :: 0 <= j < |s| ==> s[j] >= x
    ensures Sum(s) >= |s| * x
  {
    if s != [] {
      SumAtLeast(Front(s), x);
      assert |s| * x == |Front(s)| * x + x;
    }
  }

  // The least total at which decreasing loads can be rejected: just over half of every core, and
  // half a core, rounded up, on top.
  function RejectionThreshold(cores: nat, limit: nat): nat {
    cores * (limit / 2 + 1) + (limit - limit / 2)
  }

  // The arithmetic of a rejection: all cores together already hold too much.
  lemma RejectionArithmetic(cores: nat, limit: nat, load: nat, used: nat)
    requires cores > 0 && load <= limit
    requires used >= cores * (limit - load + 1)
    requires 2 * load > limit ==> used >= cores * load
    ensures used + load >= RejectionThreshold(cores, limit)
  {
    var half := limit / 2;
    if 2 * load > limit {
      ScaleOrder(cores, half + 1, load);
    } else {
      var spare := limit - half - load;
      assert limit - load + 1 == half + 1 + spare;
      Distribute(cores, half + 1, spare);
      ScaleOrder(spare, 1, cores);
    }
  }

  lemma Distribute(n: int, a: int, b: int)
    ensures n * (a + b) == n * a + n * b
  {
  }

  // Twice the total within one limit more than there are cores is well below the threshold.
  lemma HalfCapacityIsBelow(total: nat, cores: nat, limit: nat)
    requires cores > 0 && 2 * total < (cores + 1) * (limit + 1)
    ensures total < RejectionThreshold(cores, limit)
  {
    var half := limit / 2;
    Distribute(cores, half + 1, half + 1);
    assert (cores + 1) * (limit + 1) == cores * (limit + 1) + (limit + 1);
    ScaleOrder(cores, limit + 1, 2 * half + 2);
    if limit % 2 == 0 {
      assert cores * (2 * half + 2) == cores * (limit + 1) + cores by {
        Distribute(cores, limit + 1, 1);
      }
    }
  }

  // If the next, smaller item fits nowhere, the items so far and it are too much.
  lemma RejectionNeedsTotal(front: seq<nat>, load: nat, cores: nat, limit: nat)
    requires cores > 0 && load <= limit
    requires Decreasing(front) && forall i :: 0 <= i < |front| ==> front[i] >= load
    requires !Invalid(Place(front, cores, limit))
    requires FirstFit(Place(front, cores, limit).agg, load, limit) == cores
    ensures Sum(front) + load >= RejectionThreshold(cores, limit)
  {
    hide Place, Invalid;
    var agg := Place(front, cores, limit).agg;
    PlacementConservesTotal(front, cores, limit);
    SumAtLeast(agg, limit - load + 1);
    if 2 * load > limit {
      if front == [] {
        EmptyPlacement(cores, limit);
      } else {
        UsedCoreHoldsLatest(front, cores, limit);
      }
      SumAtLeast(agg, load);
    }
    RejectionArithmetic(cores, limit, load, Sum(agg));
  }

  lemma EmptyPlacement(cores: nat, limit: nat)
    requires cores > 0
    ensures forall j :: 0 <= j < cores ==> Place([], cores, limit).agg[j] == 0
  {
  }

  // Decreasing loads below the threshold are never rejected.
  lemma {:induction false} FirstFitDecreasing(loads: seq<nat>, cores: nat, limit: nat)
    requires cores > 0 && Decreasing(loads)
    requires forall i :: 0 <= i < |loads| ==> loads[i] <= limit
    requires Sum(loads) < RejectionThreshold(cores, limit)
    ensures !Invalid(Place(loads, cores, limit))
  {
    hide FirstFit;
    if loads != [] {
      var front := Front(loads);
      assert Sum(loads) == Sum(front) + Last(loads);
      FirstFitDecreasing(front, cores, limit);
      if FirstFit(Place(front, cores, limit).agg, Last(loads), limit) == cores {
        RejectionNeedsTotal(front, Last(loads), cores, limit);
      }
    }
  }

  function Copies(load: nat, k: nat): (s: seq<nat>)
    ensures |s| == k
  {
    if k == 0 then [] else Copies(load, k - 1) + [load]
  }

  lemma PlaceAppended(loads: seq<nat>, load: nat, cores: nat, limit: nat)
    requires cores > 0
    ensures Place(loads + [load], cores, limit) == PlaceOne(Place(loads, cores, limit), load, limit)
  {
    assert Front(loads + [load]) == loads;
  }

  // The first k cores hold one item each, the others nothing.
  predicate OneEach(agg: seq<nat>, load: nat, k: nat) {
    forall j :: 0 <= j < |agg| ==> agg[j] == (if j < k then load else 0)
  }

  lemma {:induction false} OverHalfFillsCores(load: nat, k: nat, cores: nat, limit: nat)
    requires 0 < cores && k <= cores && load <= limit < 2 * load
    ensures OneEach(Place(Copies(load, k), cores, limit).agg, load, k)
  {
    if k == 0 {
      EmptyPlacement(cores, limit);
    } else {
      hide Place, OneEach;
      OverHalfFillsCores(load, k - 1, cores, limit);
      OneMoreFilled(Copies(load, k - 1), load, k - 1, cores, limit);
    }
  }

  lemma OneMoreFilled(loads: seq<nat>, load: nat, k: nat, cores: nat, limit: nat)
    requires k < cores && load <= limit < 2 * load && OneEach(Place(loads, cores, limit).agg, load, k)
    ensures OneEach(Place(loads + [load], cores, limit).agg, load, k + 1)
  {
    hide Place, OneEach, FirstFit;
    PlaceAppended(loads, load, cores, limit);
    FillsNext(Place(loads, cores, limit).agg, load, k, limit);
  }

  lemma FillsNext(agg: seq<nat>, load: nat, k: nat, limit: nat)
    requires k < |agg| && load <= limit < 2 * load && OneEach(agg, load, k)
    ensures FirstFit(agg, load, limit) == k && OneEach(agg[k := agg[k] + load], load, k + 1)
  {
    var j := FirstFit(agg, load, limit);
    hide FirstFit;
    assert agg[k] == 0;
    assert forall i :: 0 <= i < k ==> agg[i] == load;
  }

  // The items of the tightest rejection.
  function TightLoads(cores: nat, limit: nat): seq<nat> {
    Copies(limit / 2 + 1, cores) + [limit - limit / 2]
  }

  lemma {:induction false} CopiesFacts(load: nat, k: nat)
    ensures Sum(Copies(load, k)) == k * load
    ensures forall i :: 0 <= i < k ==> Copies(load, k)[i] == load
  {
    if k > 0 {
      CopiesFacts(load, k - 1);
      assert Front(Copies(load, k)) == Copies(load, k - 1);
      assert k * load == (k - 1) * load + load;
    }
  }

  lemma TightIsRejected(cores: nat, limit: nat)
    requires cores > 0 && limit > 0
    ensures Invalid(Place(TightLoads(cores, limit), cores, limit))
  {
    hide Place, Copies;
    var big, last := limit / 2 + 1, limit - limit / 2;
    var before := Place(Copies(big, cores), cores, limit);
    OverHalfFillsCores(big, cores, cores, limit);
    PlaceAppended(Copies(big, cores), last, cores, limit);
    assert FirstFit(before.agg, last, limit) == cores;
    var after := PlaceOne(before, last, limit);
    assert after.rejected[|after.rejected| - 1];
  }

  lemma TightReachesThreshold(cores: nat, limit: nat)
    requires limit > 0
    ensures var loads := TightLoads(cores, limit);
            && Decreasing(loads) && (forall i :: 0 <= i < |loads| ==> loads[i] <= limit)
            && Sum(loads) == RejectionThreshold(cores, limit)
  {
    hide Copies;
    var loads := TightLoads(cores, limit);
    CopiesFacts(limit / 2 + 1, cores);
    assert Front(loads) == Copies(limit / 2 + 1, cores) && Last(loads) == limit - limit / 2;
  }

  // The threshold is exact: for every number of cores and every limit some decreasing loads, each
  // within a core, reach it and are rejected.
  lemma ThresholdIsExact(cores: nat, limit: nat)
    requires cores > 0 && limit > 0
    ensures var loads := TightLoads(cores, limit);
            && Decreasing(loads) && (forall i :: 0 <= i < |loads| ==> loads[i] <= limit)
            && Sum(loads) == RejectionThreshold(cores, limit)
            && Invalid(Place(loads, cores, limit))
  {
    hide Place, Invalid, TightLoads, Sum, Decreasing;
    TightReachesThreshold(cores, limit);
    TightIsRejected(cores, limit);
  }

  // ---------- Rejected is not unschedulable ----------

  // Some assignment of the items to the cores keeps every core within the limit.
  ghost predicate Packable(loads: seq<nat>, cores: nat, limit: nat) {
    exists assignment: seq<nat> :: Packs(loads, assignment, cores, limit)
  }

  predicate Packs(loads: seq<nat>, assignment: seq<nat>, cores: nat, limit: nat) {
    && |assignment| == |loads|
    && (forall i :: 0 <= i < |loads| ==> assignment[i] < cores)
    && (forall c :: 0 <= c < cores ==> CoreLoad(loads, assignment, c) <= limit)
  }

  // What is not rejected is packed: a load list that cannot be packed is always flagged.
  lemma UnpackableIsRejected(loads: seq<nat>, cores: nat, limit: nat)
    requires cores > 0 && !Invalid(Place(loads, cores, limit))
    ensures Packable(loads, cores, limit)
  {
    hide Place, CoreLoad;
    var out := Place(loads, cores, limit);
    PlacementInBounds(loads, cores, limit);
    forall c | 0 <= c < cores
      ensures CoreLoad(loads, out.cores, c) <= limit
    {
      PlacementConserves(loads, cores, limit, c);
    }
    assert Packs(loads, out.cores, cores, limit);
  }

  lemma CoreLoadAppended(loads: seq<nat>, assignment: seq<nat>, load: nat, core: nat, c: nat)
    requires |loads| == |assignment|
    ensures CoreLoad(loads + [load], assignment + [core], c)
            == CoreLoad(loads, assignment, c) + (if core == c then load else 0)
  {
    assert Front(loads + [load]) == loads && Front(assignment + [core]) == assignment;
  }

  // The converse fails: these six decreasing loads fill two cores exactly, 4 + 2 + 2 and
  // 3 + 3 + 2, and yet the last of them is rejected.
  lemma RejectedThoughPackable()
    ensures var loads := [4, 3, 3, 2, 2, 2];
            Decreasing(loads) && Packable(loads, 2, 8) && Invalid(Place(loads, 2, 8))
  {
    hide Place, CoreLoad;
    var loads: seq<nat>, assignment: seq<nat> := [4, 3, 3, 2, 2, 2], [0, 1, 1, 0, 0, 1];
    forall c | 0 <= c < 2
      ensures CoreLoad(loads, assignment, c) == 8
    {
      SixLoads(loads, assignment, c);
    }
    assert Packs(loads, assignment, 2, 8);
    RejectedAtLast();
  }

  lemma SixLoads(loads: seq<nat>, assignment: seq<nat>, c: nat)
    requires loads == [4, 3, 3, 2, 2, 2] && assignment == [0, 1, 1, 0, 0, 1] && c < 2
    ensures CoreLoad(loads, assignment, c) == 8
  {
    hide CoreLoad;
    EmptyCore(c);
    CoreLoadAppended([], [], 4, 0, c);
    CoreLoadAppended([4], [0], 3, 1, c);
    CoreLoadAppended([4, 3], [0, 1], 3, 1, c);
    CoreLoadAppended([4, 3, 3], [0, 1, 1], 2, 0, c);
    CoreLoadAppended([4, 3, 3, 2], [0, 1, 1, 0], 2, 0, c);
    CoreLoadAppended([4, 3, 3, 2, 2], [0, 1, 1, 0, 0], 2, 1, c);
    assert [] + [4] == [4] && [] + [0] == [0];
    assert [4] + [3] == [4, 3] && [0] + [1] == [0, 1];
    assert [4, 3] + [3] == [4, 3, 3] && [0, 1] + [1] == [0, 1, 1];
    assert [4, 3, 3] + [2] == [4, 3, 3, 2] && [0, 1, 1] + [0] == [0, 1, 1, 0];
    assert [4, 3, 3, 2] + [2] == [4, 3, 3, 2, 2] && [0, 1, 1, 0] + [0] == [0, 1, 1, 0, 0];
    assert [4, 3, 3, 2, 2] + [2] == loads && [0, 1, 1, 0, 0] + [1] == assignment;
  }

  lemma EmptyCore(c: nat)
    ensures CoreLoad([], [], c) == 0
  {
  }

  // One step of a concrete placement.
  lemma PlaceNextLoad(loads: seq<nat>, agg: seq<nat>, load: nat)
    requires Place(loads, 2, 8).agg == agg && |agg| == 2
    ensures agg[0] + load <= 8 ==> Place(loads + [load], 2, 8).agg == [agg[0] + load, agg[1]]
    ensures agg[0] + load > 8 && agg[1] + load <= 8 ==> Place(loads + [load], 2, 8).agg == [agg[0], agg[1] + load]
    ensures agg[0] + load > 8 && agg[1] + load > 8 ==> Invalid(Place(loads + [load], 2, 8))
  {
    hide Place;
    PlaceAppended(loads, load, 2, 8);
    var after := PlaceOne(Place(loads, 2, 8), load, 8);
    assert after.rejected[|after.rejected| - 1] ==> Invalid(after);
  }

  lemma RejectedAtLast()
    ensures Invalid(Place([4, 3, 3, 2, 2, 2], 2, 8))
  {
    hide Place, Invalid;
    FirstThree();
    PlaceNextLoad([4, 3, 3], [7, 3], 2);
    assert [4, 3, 3] + [2] == [4, 3, 3, 2];
    PlaceNextLoad([4, 3, 3, 2], [7, 5], 2);
    assert [4, 3, 3, 2] + [2] == [4, 3, 3, 2, 2];
    PlaceNextLoad([4, 3, 3, 2, 2], [7, 7], 2);
    assert [4, 3, 3, 2, 2] + [2] == [4, 3, 3, 2, 2, 2];
  }

  lemma FirstThree()
    ensures Place([4, 3, 3], 2, 8).agg == [7, 3]
  {
    hide Place, Invalid;
    EmptyPlacement(2, 8);
    PlaceNextLoad([], [0, 0], 4);
    assert [] + [4] == [4];
    PlaceNextLoad([4], [4, 0], 3);
    assert [4] + [3] == [4, 3];
    PlaceNextLoad([4, 3], [7, 0], 3);
    assert [4, 3] + [3] == [4, 3, 3];
  }

  // ---------- Exact utilisation ----------

  function CoreExact(exact: seq<real>, cores: seq<nat>, c: nat): real
    requires |exact| == |cores|
  {
    if exact == [] then 0.0
    else CoreExact(Front(exact), Front(cores), c) + (if Last(cores) == c then Last(exact) else 0.0)
  }

  function CoreCount(cores: seq<nat>, c: nat): nat {
    if cores == [] then 0 else CoreCount(Front(cores), c) + (if Last(cores) == c then 1 else 0)
  }

  // Rounding down loses less than one unit for each subtask of the core, and nothing when exact.
  lemma {:induction false} RoundingLoss(loads: seq<nat>, exact: seq<real>, cores: seq<nat>, c: nat)
    requires |loads| == |exact| == |cores|
    requires forall i :: 0 <= i < |loads| ==> loads[i] as real <= exact[i] < loads[i] as real + 1.0
    ensures CoreLoad(loads, cores, c) as real <= CoreExact(exact, cores, c)
    ensures CoreExact(exact, cores, c) <= (CoreLoad(loads, cores, c) + CoreCount(cores, c)) as real
    ensures CoreCount(cores, c) > 0 ==>
              CoreExact(exact, cores, c) < (CoreLoad(loads, cores, c) + CoreCount(cores, c)) as real
    ensures (forall i :: 0 <= i < |loads| && cores[i] == c ==> exact[i] == loads[i] as real) ==>
              CoreExact(exact, cores, c) == CoreLoad(loads, cores, c) as real
  {
    if loads != [] {
      RoundingLoss(Front(loads), Front(exact), Front(cores), c);
    }
  }

  // ---------- Placing the subtasks ----------

  function ScaledLoad(s: Subtask, t: Task, hyperPeriod: nat): nat
    requires t.period > 0
  {
    var work: nat := s.exeTime * hyperPeriod;
    work / t.period
  }

  function ExactLoad(s: Subtask, t: Task, hyperPeriod: nat): real
    requires t.period > 0
  {
    (s.exeTime * hyperPeriod) as real / t.period as real
  }

  lemma LoadIsFloor(s: Subtask, t: Task, hyperPeriod: nat)
    requires t.period > 0
    ensures var load := ScaledLoad(s, t, hyperPeriod) as real;
            load <= ExactLoad(s, t, hyperPeriod) < load + 1.0
    ensures s.exeTime * hyperPeriod % t.period == 0 ==>
              ExactLoad(s, t, hyperPeriod) == ScaledLoad(s, t, hyperPeriod) as real
  {
    var w, p := s.exeTime * hyperPeriod, t.period;
    FloorOfFraction(w, p, w / p, w % p);
  }

  lemma FloorOfFraction(w: nat, p: nat, q: nat, r: nat)
    requires r < p && w == p * q + r
    ensures q as real <= w as real / p as real < q as real + 1.0
    ensures r == 0 ==> w as real / p as real == q as real
  {
    var x := w as real / p as real;
    assert (p * q) as real == p as real * q as real;
    BetweenMultiples(x, q as real, p as real, r as real);
  }

  lemma BetweenMultiples(x: real, q: real, p: real, r: real)
    requires 0.0 <= r < p && x * p == p * q + r
    ensures q <= x < q + 1.0
    ensures r == 0.0 ==> x == q
  {
    var d := x - q;
    assert d * p == r by {
      assert d * p == x * p - q * p;
    }
    if d < 0.0 {
      RealOrder(d, 0.0, p);
    } else if d >= 1.0 {
      RealOrder(1.0, d, p);
    } else if d > 0.0 {
      RealOrder(0.0, d, p);
    }
  }

  lemma RealOrder(x: real, y: real, p: real)
    requires p > 0.0
    ensures x < y ==> x * p < y * p
    ensures x <= y ==> x * p <= y * p
  {
  }

  // The sort order of comp_util makes the scaled loads decreasing.
  lemma UtilOrderGivesDecreasingLoads(l: Subtask, lpa: Task, r: Subtask, rpa: Task, hyperPeriod: nat)
    requires lpa.period > 0 && rpa.period > 0
    requires FitsInt64(l.exeTime * rpa.period) && FitsInt64(r.exeTime * lpa.period)
    requires CompUtil(l, lpa, r, rpa) <= 0
    ensures ScaledLoad(l, lpa, hyperPeriod) >= ScaledLoad(r, rpa, hyperPeriod)
  {
    ScaleFraction(r.exeTime, rpa.period, l.exeTime, lpa.period, hyperPeriod);
    FloorMonotone(r.exeTime * hyperPeriod, rpa.period, l.exeTime * hyperPeriod, lpa.period);
  }

  lemma ScaleFraction(a: nat, p: nat, b: nat, q: nat, h: nat)
    requires a * q <= b * p
    ensures a * h * q <= b * h * p
  {
    ScaleOrder(h, a * q, b * p);
    Reorder(a, h, q);
    Reorder(b, h, p);
  }

  // The loads in the order the pointers list the subtasks.
  function LoadsOf(tasks: seq<Task>, subs: seq<Subtask>, order: seq<nat>, hyperPeriod: nat): (l: seq<nat>)
    requires Placeable(tasks, subs, order)
    ensures |l| == |order|
  {
    seq(|order|, i requires 0 <= i < |order| =>
      ScaledLoad(subs[order[i]], tasks[subs[order[i]].taskId], hyperPeriod))
  }

  predicate Placeable(tasks: seq<Task>, subs: seq<Subtask>, order: seq<nat>) {
    forall i :: 0 <= i < |order| ==>
      order[i] < |subs| && subs[order[i]].taskId < |tasks| && tasks[subs[order[i]].taskId].period > 0
  }

  // The table after the first k pointers' subtasks have received their cores.
  predicate CoresWritten(before: seq<Subtask>, after: seq<Subtask>, order: seq<nat>, cores: seq<nat>) {
    && |after| == |before| && |cores| <= |order|
    && (forall i :: 0 <= i < |cores| && order[i] < |before| ==>
          cores[i] < 0x1_0000_0000 && after[order[i]] == before[order[i]].(core := cores[i]))
    && (forall p :: 0 <= p < |before| && p !in order[..|cores|] ==> after[p] == before[p])
  }

  // The search for a core with room, in 32-bit arithmetic.
  method FindCore(agg: array<uint32>, load: uint32, hyperPeriod: uint32) returns (j: nat)
    requires forall k :: 0 <= k < agg.Length ==> agg[k] + load < 0x1_0000_0000
    ensures j == FirstFit(agg[..], load, hyperPeriod)
  {
    for k := 0 to agg.Length
      invariant FirstFit(agg[..], load, hyperPeriod) >= k
    {
      var filled: uint32 := agg[k] + load;
      if filled <= hyperPeriod {
        return k;
      }
    }
    return agg.Length;
  }

  // One turn of the placement loop: the core for the subtask at position p.
  method PlaceSubtask(tasks: array<Task>, subs: array<Subtask>, p: nat, agg: array<uint32>, hyperPeriod: uint32)
    returns (rejected: bool)
    requires 0 < agg.Length < 0x1_0000_0000
    requires p < subs.Length && subs[p].taskId < tasks.Length && tasks[subs[p].taskId].period > 0
    requires (subs[p].exeTime + 1) * hyperPeriod < 0x1_0000_0000
    requires forall k :: 0 <= k < agg.Length ==> agg[k] <= hyperPeriod
    modifies subs, agg
    ensures var load := ScaledLoad(old(subs[p]), tasks[old(subs[p].taskId)], hyperPeriod);
            var out := PlaceOne(Outcome(old(agg[..]), [], []), load, hyperPeriod);
            && agg[..] == out.agg && out.cores[0] < agg.Length
            && subs[..] == old(subs[..])[p := old(subs[p]).(core := out.cores[0])]
            && rejected == out.rejected[0]
  {
    var cores: uint32 := agg.Length;
    assert (subs[p].exeTime + 1) * hyperPeriod == subs[p].exeTime * hyperPeriod + hyperPeriod;
    subs[p] := subs[p].(core := cores);
    var parent := tasks[subs[p].taskId];
    var work: uint32 := subs[p].exeTime * hyperPeriod;
    LoadBounded(work, parent.period);
    var load: uint32 := work / parent.period;
    var j := FindCore(agg, load, hyperPeriod);
    if j < agg.Length {
      agg[j] := agg[j] + load;
      subs[p] := subs[p].(core := j);
    }
    rejected := subs[p].core == cores;
    if rejected {
      subs[p] := subs[p].(core := 0);
      agg[0] := hyperPeriod;
    }
  }

  lemma LoadBounded(work: nat, period: nat)
    requires period > 0
    ensures 0 <= work / period <= work
  {
    var q := work / period;
    assert work == period * q + work % period;
    ScaleOrder(q, 1, period);
  }

  lemma CoreNotYetWritten(before: seq<Subtask>, now: seq<Subtask>, order: seq<nat>, cores: seq<nat>)
    requires CoresWritten(before, now, order, cores) && |cores| < |order|
    requires forall i, k :: 0 <= i < k < |order| ==> order[i] != order[k]
    requires order[|cores|] < |before|
    ensures |now| == |before| && now[order[|cores|]] == before[order[|cores|]]
  {
  }

  lemma CoreWrittenNext(before: seq<Subtask>, now: seq<Subtask>, order: seq<nat>, cores: seq<nat>, j: nat)
    requires CoresWritten(before, now, order, cores) && |cores| < |order|
    requires forall i, k :: 0 <= i < k < |order| ==> order[i] != order[k]
    requires order[|cores|] < |now| && j < 0x1_0000_0000
    ensures var p := order[|cores|];
            CoresWritten(before, now[p := now[p].(core := j)], order, cores + [j])
  {
    var i := |cores|;
    CoreNotYetWritten(before, now, order, cores);
    assert order[..i + 1] == order[..i] + [order[i]];
  }

  method PlaceSubtasks(tasks: array<Task>, subs: array<Subtask>, order: seq<nat>,
                       hyperPeriod: uint32, cores: nat)
    returns (invalid: bool, agg: array<uint32>)
    requires 0 < cores < 0x1_0000_0000
    requires Placeable(tasks[..], subs[..], order)
    requires forall i, k :: 0 <= i < k < |order| ==> order[i] != order[k]
    requires forall i :: 0 <= i < |order| ==> (subs[order[i]].exeTime + 1) * hyperPeriod < 0x1_0000_0000
    modifies subs
    ensures var out := Place(LoadsOf(tasks[..], old(subs[..]), order, hyperPeriod), cores, hyperPeriod);
            agg[..] == out.agg && invalid == Invalid(out)
            && CoresWritten(old(subs[..]), subs[..], order, out.cores)
  {
    hide FirstFit, CoresWritten, InBounds, ScaledLoad, Place, PlaceOne;
    ghost var loads := LoadsOf(tasks[..], subs[..], order, hyperPeriod);
    ghost var out := Place([], cores, hyperPeriod);
    EmptyPlacement(cores, hyperPeriod);
    NoCoresWritten(subs[..], order);
    agg := new uint32[cores](_ => 0);
    invalid := false;
    for i := 0 to |order|
      invariant fresh(agg) && agg.Length == cores
      invariant out == Place(loads[..i], cores, hyperPeriod)
      invariant agg[..] == out.agg && invalid == Invalid(out)
      invariant CoresWritten(old(subs[..]), subs[..], order, out.cores)
    {
      PlacementInBounds(loads[..i], cores, hyperPeriod);
      AggBounded(out, hyperPeriod);
      CoreNotYetWritten(old(subs[..]), subs[..], order, out.cores);
      PlaceNext(loads, i, cores, hyperPeriod);
      ghost var now, alone := subs[..], PlaceOne(Outcome(out.agg, [], []), loads[i], hyperPeriod);
      var rejected := PlaceSubtask(tasks, subs, order[i], agg, hyperPeriod);
      invalid := invalid || rejected;
      CoreWrittenNext(old(subs[..]), now, order, out.cores, alone.cores[0]);
      out := PlaceOne(out, loads[i], hyperPeriod);
    }
    assert loads[..|order|] == loads;
  }

  lemma PlaceNext(loads: seq<nat>, i: nat, cores: nat, limit: nat)
    requires i < |loads| && cores > 0
    ensures var out := Place(loads[..i], cores, limit);
            var alone := PlaceOne(Outcome(out.agg, [], []), loads[i], limit);
            var next := PlaceOne(out, loads[i], limit);
            && Place(loads[..i + 1], cores, limit) == next && next.agg == alone.agg
            && next.cores == out.cores + [alone.cores[0]]
            && (Invalid(next) <==> Invalid(out) || alone.rejected[0])
  {
    hide FirstFit;
    assert loads[..i + 1][..i] == loads[..i];
    var out := Place(loads[..i], cores, limit);
    var next := PlaceOne(out, loads[i], limit);
    assert forall k :: 0 <= k < i ==> next.rejected[k] == out.rejected[k];
    assert Invalid(out) ==> exists k :: 0 <= k < i && next.rejected[k];
  }

  lemma NoCoresWritten(subs: seq<Subtask>, order: seq<nat>)
    ensures CoresWritten(subs, subs, order, [])
  {
  }

  lemma AggBounded(out: Outcome, limit: nat)
    requires InBounds(out, limit)
    ensures forall k :: 0 <= k < |out.agg| ==> out.agg[k] <= limit
  {
  }

  // ---------- Loads read off the table ----------

  function TermOn(tasks: seq<Task>, subs: seq<Subtask>, p: nat, hyperPeriod: nat, core: Option<nat>): nat
    requires p < |subs| && subs[p].taskId < |tasks| && tasks[subs[p].taskId].period > 0
  {
    if core == None || subs[p].core == core.value then ScaledLoad(subs[p], tasks[subs[p].taskId], hyperPeriod) else 0
  }

  // The load of the listed subtasks, all of them or those on one core.
  function LoadOn(tasks: seq<Task>, subs: seq<Subtask>, order: seq<nat>, hyperPeriod: nat, core: Option<nat>): nat
    requires Placeable(tasks, subs, order)
  {
    if order == [] then 0
    else
      assert order[|order| - 1] == Last(order);
      LoadOn(tasks, subs, Front(order), hyperPeriod, core) + TermOn(tasks, subs, Last(order), hyperPeriod, core)
  }

  lemma LoadOnLast(tasks: seq<Task>, subs: seq<Subtask>, front: seq<nat>, p: nat,
                   hyperPeriod: nat, core: Option<nat>)
    requires Placeable(tasks, subs, front + [p])
    ensures p < |subs| && subs[p].taskId < |tasks| && tasks[subs[p].taskId].period > 0
    ensures Placeable(tasks, subs, front)
    ensures LoadOn(tasks, subs, front + [p], hyperPeriod, core)
            == LoadOn(tasks, subs, front, hyperPeriod, core) + TermOn(tasks, subs, p, hyperPeriod, core)
  {
    hide TermOn;
    var order := front + [p];
    assert order[|front|] == p && Front(order) == front;
    assert forall i :: 0 <= i < |front| ==> front[i] == order[i];
  }

  lemma {:induction false} LoadOnExtract(tasks: seq<Task>, subs: seq<Subtask>, order: seq<nat>, i: nat,
                                         hyperPeriod: nat, core: Option<nat>)
    requires Placeable(tasks, subs, order) && i < |order|
    ensures Placeable(tasks, subs, Without(order, i))
    ensures LoadOn(tasks, subs, order, hyperPeriod, core)
            == LoadOn(tasks, subs, Without(order, i), hyperPeriod, core)
               + TermOn(tasks, subs, order[i], hyperPeriod, core)
  {
    hide TermOn, LoadOn;
    var rest, front := Without(order, i), Front(order);
    assert order == front + [Last(order)];
    LoadOnLast(tasks, subs, front, Last(order), hyperPeriod, core);
    if i == |order| - 1 {
      assert rest == front;
    } else {
      var inner := Without(front, i);
      LoadOnExtract(tasks, subs, front, i, hyperPeriod, core);
      assert rest == inner + [Last(order)];
      LoadOnLast(tasks, subs, inner, Last(order), hyperPeriod, core);
    }
  }

  // The load does not depend on the order in which the subtasks are listed.
  lemma {:induction false} LoadOnIgnoresOrder(tasks: seq<Task>, subs: seq<Subtask>, a: seq<nat>, b: seq<nat>,
                                              hyperPeriod: nat, core: Option<nat>)
    requires Placeable(tasks, subs, a) && Placeable(tasks, subs, b) && multiset(a) == multiset(b)
    ensures LoadOn(tasks, subs, a, hyperPeriod, core) == LoadOn(tasks, subs, b, hyperPeriod, core)
    decreases |a|
  {
    hide TermOn;
    if a == [] {
      assert |b| == |multiset(b)| == 0;
    } else {
      var i := TakeOut(a, |a| - 1, b);
      LoadOnExtract(tasks, subs, b, i, hyperPeriod, core);
      LoadOnExtract(tasks, subs, a, |a| - 1, hyperPeriod, core);
      LoadOnIgnoresOrder(tasks, subs, Without(a, |a| - 1), Without(b, i), hyperPeriod, core);
    }
  }

  // The two readings of a load agree: from the placement, and from the table it wrote.
  lemma {:induction false} LoadOnIsCoreLoad(tasks: seq<Task>, before: seq<Subtask>, after: seq<Subtask>,
                                            order: seq<nat>, cores: seq<nat>, hyperPeriod: nat, c: nat)
    requires Placeable(tasks, before, order) && |after| == |before| && |cores| == |order|
    requires forall i :: 0 <= i < |order| ==> after[order[i]] == before[order[i]].(core := cores[i])
    ensures Placeable(tasks, after, order)
    ensures CoreLoad(LoadsOf(tasks, before, order, hyperPeriod), cores, c)
            == LoadOn(tasks, after, order, hyperPeriod, Some(c))
    ensures Sum(LoadsOf(tasks, before, order, hyperPeriod)) == LoadOn(tasks, before, order, hyperPeriod, None)
  {
    if order == [] {
      assert LoadsOf(tasks, before, order, hyperPeriod) == [];
    } else {
      LoadOnIsCoreLoad(tasks, before, after, Front(order), Front(cores), hyperPeriod, c);
      assert Front(LoadsOf(tasks, before, order, hyperPeriod)) == LoadsOf(tasks, before, Front(order), hyperPeriod);
    }
  }

  function ExactLoadsOf(tasks: seq<Task>, subs: seq<Subtask>, order: seq<nat>, hyperPeriod: nat): (l: seq<real>)
    requires Placeable(tasks, subs, order)
    ensures |l| == |order|
  {
    seq(|order|, i requires 0 <= i < |order| =>
      ExactLoad(subs[order[i]], tasks[subs[order[i]].taskId], hyperPeriod))
  }

  // Unless the case is flagged, a core's exact utilisation stays below the limit plus one unit for
  // each of its subtasks, and within the limit when the divisions are exact.
  lemma ExactUtilisation(tasks: seq<Task>, subs: seq<Subtask>, order: seq<nat>, hyperPeriod: nat, cores: nat, c: nat)
    requires Placeable(tasks, subs, order) && c < cores
    requires !Invalid(Place(LoadsOf(tasks, subs, order, hyperPeriod), cores, hyperPeriod))
    ensures var out := Place(LoadsOf(tasks, subs, order, hyperPeriod), cores, hyperPeriod);
            var used := CoreExact(ExactLoadsOf(tasks, subs, order, hyperPeriod), out.cores, c);
            && used <= (hyperPeriod + CoreCount(out.cores, c)) as real
            && (CoreCount(out.cores, c) > 0 ==> used < (hyperPeriod + CoreCount(out.cores, c)) as real)
            && ((forall i :: 0 <= i < |order| && out.cores[i] == c ==>
                   subs[order[i]].exeTime * hyperPeriod % tasks[subs[order[i]].taskId].period == 0)
                ==> used <= hyperPeriod as real)
  {
    hide Place, Invalid, CoreLoad, CoreExact, CoreCount, ScaledLoad, ExactLoad;
    var loads := LoadsOf(tasks, subs, order, hyperPeriod);
    var out := Place(loads, cores, hyperPeriod);
    var exact := ExactLoadsOf(tasks, subs, order, hyperPeriod);
    forall i | 0 <= i < |order|
      ensures loads[i] as real <= exact[i] < loads[i] as real + 1.0
      ensures subs[order[i]].exeTime * hyperPeriod % tasks[subs[order[i]].taskId].period == 0
              ==> exact[i] == loads[i] as real
    {
      LoadIsFloor(subs[order[i]], tasks[subs[order[i]].taskId], hyperPeriod);
    }
    PlacementInBounds(loads, cores, hyperPeriod);
    PlacementConserves(loads, cores, hyperPeriod, c);
    RoundingLoss(loads, exact, out.cores, c);
  }
}
