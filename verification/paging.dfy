// Demand paging: reference-counted records of page frames, shared by memory areas.
module Paging {
  import opened Wrappers
  import opened Sequences

  // The record behind an area: how many areas share it, and its pages, latest first.
  datatype Record = Record(reference: int, pages: seq<nat>)

  // Areas and records are known by the order in which they came into being; a closed area and a
  // released record are None. held are the frames the module has from the kernel, and stray those
  // of them that could not be mapped. recorded and freed are the histories of the two counters.
  datatype State = State(
    areas: seq<Option<nat>>,
    records: seq<Option<Record>>,
    allocNumber: int,
    freeNumber: int,
    held: set<nat>,
    stray: set<nat>,
    recorded: multiset<nat>,
    freed: multiset<nat>)

  datatype FaultResult = Oom | SigBus | NoPage

  datatype Event =
    | Mmap
    | Open(area: nat)
    | Fault(area: nat, frame: Option<nat>, remapped: bool)
    | Close(area: nat)

  const INITIAL: State := State([], [], 0, 0, {}, {}, multiset{}, multiset{})

  // ---------- Steps ----------

  predicate LiveArea(st: State, a: nat) {
    && a < |st.areas| && st.areas[a].Some?
    && st.areas[a].value < |st.records| && st.records[st.areas[a].value].Some?
  }

  function RecordOf(st: State, a: nat): Record
    requires LiveArea(st, a)
  {
    st.records[st.areas[a].value].value
  }

  function Write(st: State, a: nat, r: Option<Record>): seq<Option<Record>>
    requires LiveArea(st, a)
  {
    st.records[st.areas[a].value := r]
  }

  // The kernel calls the operations of a live area, and hands out frames that are not in use.
  predicate Enabled(st: State, e: Event) {
    match e
    case Mmap => true
    case Open(a) => LiveArea(st, a)
    case Fault(a, frame, _) => LiveArea(st, a) && (frame.Some? ==> frame.value !in st.held)
    case Close(a) => LiveArea(st, a)
  }

  function Apply(st: State, e: Event): State
    requires Enabled(st, e)
  {
    match e
    case Mmap =>
      st.(areas := st.areas + [Some(|st.records|)], records := st.records + [Some(Record(1, []))])
    case Open(a) =>
      var r := RecordOf(st, a);
      st.(areas := st.areas + [st.areas[a]], records := Write(st, a, Some(r.(reference := r.reference + 1))))
    case Fault(a, frame, remapped) => FaultStep(st, a, frame, remapped)
    case Close(a) => CloseStep(st, a)
  }

  // A frame that cannot be mapped is neither counted nor recorded.
  function FaultStep(st: State, a: nat, frame: Option<nat>, remapped: bool): State
    requires LiveArea(st, a)
  {
    if frame == None then st
    else if !remapped then st.(held := st.held + {frame.value}, stray := st.stray + {frame.value})
    else
      var r := RecordOf(st, a);
      st.(held := st.held + {frame.value},
          allocNumber := st.allocNumber + 1,
          recorded := st.recorded + multiset{frame.value},
          records := Write(st, a, Some(r.(pages := [frame.value] + r.pages))))
  }

  // The last close of a record frees its pages; any other only drops the reference.
  function CloseStep(st: State, a: nat): State
    requires LiveArea(st, a)
  {
    var r := RecordOf(st, a);
    var closed := st.(areas := st.areas[a := None]);
    if r.reference - 1 == 0 then
      closed.(records := Write(st, a, None),
              freeNumber := st.freeNumber + |r.pages|,
              held := st.held - (set f | f in r.pages),
              freed := st.freed + multiset(r.pages))
    else closed.(records := Write(st, a, Some(r.(reference := r.reference - 1))))
  }

  // ---------- Runs ----------

  predicate Feasible(st: State, run: seq<Event>)
    decreases |run|
  {
    run == [] || (Enabled(st, run[0]) && Feasible(Apply(st, run[0]), run[1..]))
  }

  function Exec(st: State, run: seq<Event>): State
    requires Feasible(st, run)
    decreases |run|
  {
    if run == [] then st else Exec(Apply(st, run[0]), run[1..])
  }

  lemma {:induction false} ExecNext(st: State, run: seq<Event>, e: Event)
    requires Feasible(st, run) && Enabled(Exec(st, run), e)
    ensures Feasible(st, run + [e]) && Exec(st, run + [e]) == Apply(Exec(st, run), e)
    decreases |run|
  {
    hide Enabled, Apply;
    if run == [] {
      assert run + [e] == [e] && [e][1..] == [];
    } else {
      ExecNext(Apply(st, run[0]), run[1..], e);
      assert (run + [e])[1..] == run[1..] + [e];
    }
  }

  // ---------- The invariant ----------

  // The number of live areas that share record r.
  function Sharers(areas: seq<Option<nat>>, r: nat): nat {
    if areas == [] then 0
    else Sharers(areas[..|areas| - 1], r) + (if areas[|areas| - 1] == Some(r) then 1 else 0)
  }

  // All pages on live lists, with how often they are listed.
  function Listed(records: seq<Option<Record>>): multiset<nat> {
    if records == [] then multiset{}
    else Listed(records[..|records| - 1]) + PagesOf(records[|records| - 1])
  }

  function PagesOf(r: Option<Record>): multiset<nat> {
    if r.Some? then multiset(r.value.pages) else multiset{}
  }

  // The total length of the live lists.
  function TotalLength(records: seq<Option<Record>>): (n: nat)
    ensures n == |Listed(records)|
  {
    if records == [] then 0
    else
      TotalLength(records[..|records| - 1])
      + (if records[|records| - 1].Some? then |records[|records| - 1].value.pages| else 0)
  }

  // Every live area has a live record, and every live record counts its live areas.
  predicate Counted(areas: seq<Option<nat>>, records: seq<Option<Record>>) {
    && (forall a :: 0 <= a < |areas| && areas[a].Some? ==>
          areas[a].value < |records| && records[areas[a].value].Some?)
    && (forall r :: 0 <= r < |records| && records[r].Some? ==>
          records[r].value.reference == Sharers(areas, r) >= 1)
  }

  // Every held frame is listed or stray and not both, none is listed twice, and the counters
  // agree with the histories.
  ghost predicate Accounted(st: State, listed: multiset<nat>) {
    && (forall f :: f in listed ==> listed[f] == 1 && f !in st.stray)
    && (forall f :: f in st.held <==> f in listed || f in st.stray)
    && st.recorded == st.freed + listed
    && st.allocNumber == |st.recorded| && st.freeNumber == |st.freed|
  }

  ghost predicate Inv(st: State) {
    Counted(st.areas, st.records) && Accounted(st, Listed(st.records))
  }

  lemma {:induction false} SharersAppend(areas: seq<Option<nat>>, x: Option<nat>, r: nat)
    ensures Sharers(areas + [x], r) == Sharers(areas, r) + (if x == Some(r) then 1 else 0)
  {
    assert (areas + [x])[..|areas|] == areas;
  }

  lemma {:induction false} SharersClose(areas: seq<Option<nat>>, a: nat, r: nat)
    requires a < |areas|
    ensures Sharers(areas[a := None], r) == Sharers(areas, r) - (if areas[a] == Some(r) then 1 else 0)
  {
    var n := |areas| - 1;
    if a == n {
      assert areas[a := None][..n] == areas[..n];
    } else {
      SharersClose(areas[..n], a, r);
      assert areas[a := None][..n] == areas[..n][a := None];
    }
  }

  // A record nobody has heard of yet has no sharers.
  lemma {:induction false} NoSharers(areas: seq<Option<nat>>, r: nat)
    requires forall a :: 0 <= a < |areas| && areas[a].Some? ==> areas[a].value != r
    ensures Sharers(areas, r) == 0
  {
    if areas != [] {
      NoSharers(areas[..|areas| - 1], r);
    }
  }

  lemma {:induction false} SharerExists(areas: seq<Option<nat>>, r: nat) returns (a: nat)
    requires Sharers(areas, r) >= 1
    ensures a < |areas| && areas[a] == Some(r)
  {
    if areas[|areas| - 1] == Some(r) {
      a := |areas| - 1;
    } else {
      a := SharerExists(areas[..|areas| - 1], r);
    }
  }

  lemma ListedAppend(records: seq<Option<Record>>, x: Option<Record>)
    ensures Listed(records + [x]) == Listed(records) + PagesOf(x)
  {
    assert (records + [x])[..|records|] == records;
  }

  lemma {:induction false} ListedUpdate(records: seq<Option<Record>>, r: nat, x: Option<Record>)
    requires r < |records|
    ensures PagesOf(records[r]) <= Listed(records)
    ensures Listed(records[r := x]) == Listed(records) - PagesOf(records[r]) + PagesOf(x)
  {
    hide PagesOf;
    var n := |records| - 1;
    if r == n {
      assert records[r := x][..n] == records[..n];
    } else {
      ListedUpdate(records[..n], r, x);
      assert records[r := x][..n] == records[..n][r := x];
      Shift(Listed(records[..n]), PagesOf(records[r]), PagesOf(x), PagesOf(records[n]));
    }
  }

  lemma Shift(a: multiset<nat>, b: multiset<nat>, c: multiset<nat>, d: multiset<nat>)
    requires b <= a
    ensures a - b + c + d == a + d - b + c && b <= a + d
  {
  }

  lemma MmapKeeps(st: State)
    requires Inv(st)
    ensures Inv(Apply(st, Mmap))
  {
    hide Sharers, Listed;
    var after := Apply(st, Mmap);
    ListedAppend(st.records, Some(Record(1, [])));
    assert Listed(after.records) == Listed(st.records);
    NoSharers(st.areas, |st.records|);
    forall r
      ensures Sharers(after.areas, r) == Sharers(st.areas, r) + (if r == |st.records| then 1 else 0)
    {
      SharersAppend(st.areas, Some(|st.records|), r);
    }
  }

  lemma OpenKeeps(st: State, a: nat)
    requires Inv(st) && LiveArea(st, a)
    ensures Inv(Apply(st, Open(a)))
  {
    hide Sharers, Listed;
    var after, r := Apply(st, Open(a)), st.areas[a].value;
    ListedUpdate(st.records, r, after.records[r]);
    assert PagesOf(after.records[r]) == PagesOf(st.records[r]);
    assert Listed(after.records) == Listed(st.records);
    OpenKeepsCount(st, a);
  }

  lemma OpenKeepsCount(st: State, a: nat)
    requires Counted(st.areas, st.records) && LiveArea(st, a)
    ensures Counted(Apply(st, Open(a)).areas, Apply(st, Open(a)).records)
  {
    hide Sharers;
    var after, r := Apply(st, Open(a)), st.areas[a].value;
    forall q: nat
      ensures Sharers(after.areas, q) == Sharers(st.areas, q) + (if q == r then 1 else 0)
    {
      SharersAppend(st.areas, Some(r), q);
    }
  }

  lemma FaultKeeps(st: State, a: nat, frame: Option<nat>, remapped: bool)
    requires Inv(st) && Enabled(st, Fault(a, frame, remapped))
    ensures Inv(FaultStep(st, a, frame, remapped))
  {
    hide Sharers, Listed;
    if frame.Some? && remapped {
      var after, r := FaultStep(st, a, frame, remapped), st.areas[a].value;
      FaultLists(st.records, r, frame.value);
      FaultAccounts(st, after, Listed(st.records), frame.value);
    }
  }

  lemma FaultLists(records: seq<Option<Record>>, r: nat, frame: nat)
    requires r < |records| && records[r].Some?
    ensures var rec := records[r].value;
            Listed(records[r := Some(rec.(pages := [frame] + rec.pages))]) == Listed(records) + multiset{frame}
  {
    hide Listed;
    var rec := records[r].value;
    ListedUpdate(records, r, Some(rec.(pages := [frame] + rec.pages)));
    assert multiset([frame] + rec.pages) == multiset{frame} + multiset(rec.pages);
  }

  lemma FaultAccounts(st: State, after: State, listed: multiset<nat>, frame: nat)
    requires Accounted(st, listed) && frame !in st.held
    requires after.held == st.held + {frame} && after.stray == st.stray
    requires after.allocNumber == st.allocNumber + 1
    requires after.recorded == st.recorded + multiset{frame}
    requires after.freed == st.freed && after.freeNumber == st.freeNumber
    ensures Accounted(after, listed + multiset{frame})
  {
    assert frame !in listed;
  }

  lemma CloseKeeps(st: State, a: nat)
    requires Inv(st) && LiveArea(st, a)
    ensures Inv(CloseStep(st, a))
  {
    hide Sharers, Listed;
    var after, r := CloseStep(st, a), st.areas[a].value;
    ListedUpdate(st.records, r, after.records[r]);
    CloseKeepsCount(st, a);
    CloseAccounts(st, after, Listed(st.records), RecordOf(st, a).pages);
  }

  lemma CloseAccounts(st: State, after: State, listed: multiset<nat>, pages: seq<nat>)
    requires Accounted(st, listed) && multiset(pages) <= listed && after.recorded == st.recorded
    requires after.allocNumber == st.allocNumber && after.stray == st.stray
    ensures after.held == st.held - (set f | f in pages) && after.freed == st.freed + multiset(pages)
            && after.freeNumber == st.freeNumber + |pages|
            ==> Accounted(after, listed - multiset(pages))
    ensures after.held == st.held && after.freed == st.freed && after.freeNumber == st.freeNumber
            ==> Accounted(after, listed - multiset(pages) + multiset(pages))
  {
    assert |multiset(pages)| == |pages|;
    assert listed - multiset(pages) + multiset(pages) == listed;
    forall f | f in listed - multiset(pages)
      ensures f !in pages
    {
      assert f in multiset(pages) ==> multiset(pages)[f] >= 1;
    }
  }

  lemma CloseKeepsCount(st: State, a: nat)
    requires Counted(st.areas, st.records) && LiveArea(st, a)
    ensures Counted(CloseStep(st, a).areas, CloseStep(st, a).records)
  {
    hide Sharers;
    var after, r := CloseStep(st, a), st.areas[a].value;
    forall q: nat
      ensures Sharers(after.areas, q) == Sharers(st.areas, q) - (if q == r then 1 else 0)
    {
      SharersClose(st.areas, a, q);
    }
    if after.records[r] == None {
      forall b | 0 <= b < |after.areas| && after.areas[b].Some?
        ensures after.areas[b].value != r
      {
        if after.areas[b].value == r {
          SharersClose(after.areas, b, r);
        }
      }
    }
  }

  lemma StepKeepsInv(st: State, e: Event)
    requires Inv(st) && Enabled(st, e)
    ensures Inv(Apply(st, e))
  {
    hide Inv, CloseStep, FaultStep;
    match e
    case Mmap => MmapKeeps(st);
    case Open(a) => OpenKeeps(st, a);
    case Fault(a, frame, remapped) => FaultKeeps(st, a, frame, remapped);
    case Close(a) => CloseKeeps(st, a);
  }

  lemma {:induction false} RunKeepsInv(st: State, run: seq<Event>)
    requires Inv(st) && Feasible(st, run)
    ensures Inv(Exec(st, run))
    decreases |run|
  {
    hide Inv, Apply;
    if run != [] {
      StepKeepsInv(st, run[0]);
      RunKeepsInv(Apply(st, run[0]), run[1..]);
    }
  }

  lemma InvInitial()
    ensures Inv(INITIAL)
  {
  }

  // ---------- Conservation ----------

  // In every run each live record's count is the number of live areas that share it, and the
  // counters differ by the total length of the live lists.
  lemma Conservation(run: seq<Event>, r: nat)
    requires Feasible(INITIAL, run)
    ensures var st := Exec(INITIAL, run);
            && (r < |st.records| && st.records[r].Some? ==>
                  st.records[r].value.reference == Sharers(st.areas, r) >= 1)
            && st.allocNumber - st.freeNumber == TotalLength(st.records)
            && st.recorded == st.freed + Listed(st.records)
  {
    InvInitial();
    RunKeepsInv(INITIAL, run);
  }

  // No page is on two lists, or twice on one.
  lemma PagesDisjoint(run: seq<Event>, r: nat, i: nat, q: nat, k: nat)
    requires Feasible(INITIAL, run)
    requires var st := Exec(INITIAL, run);
             && r < |st.records| && st.records[r].Some? && i < |st.records[r].value.pages|
             && q < |st.records| && st.records[q].Some? && k < |st.records[q].value.pages|
             && st.records[r].value.pages[i] == st.records[q].value.pages[k]
    ensures r == q && i == k
  {
    InvInitial();
    RunKeepsInv(INITIAL, run);
    var records := Exec(INITIAL, run).records;
    var f := records[r].value.pages[i];
    assert f in PagesOf(records[r]) && f in PagesOf(records[q]);
    ListedUpdate(records, r, None);
    if r != q {
      ListedApart(records, r, q);
    } else if i != k {
      ListedTwice(records[r].value.pages, i, k);
    }
  }

  lemma ListedApart(records: seq<Option<Record>>, r: nat, q: nat)
    requires r < |records| && q < |records| && r != q
    ensures PagesOf(records[r]) + PagesOf(records[q]) <= Listed(records)
  {
    ListedUpdate(records, r, None);
    ListedUpdate(records[r := None], q, None);
  }

  // When no area is left every recorded page has been freed exactly as often as it was recorded,
  // the counters agree, and the module keeps only the frames that could not be mapped.
  lemma NothingLeft(run: seq<Event>)
    requires Feasible(INITIAL, run)
    requires var areas := Exec(INITIAL, run).areas; forall a :: 0 <= a < |areas| ==> areas[a] == None
    ensures var st := Exec(INITIAL, run);
            && st.allocNumber == st.freeNumber && st.recorded == st.freed && st.held == st.stray
            && forall r :: 0 <= r < |st.records| ==> st.records[r] == None
  {
    InvInitial();
    RunKeepsInv(INITIAL, run);
    var st := Exec(INITIAL, run);
    forall r | 0 <= r < |st.records|
      ensures st.records[r] == None
    {
      if st.records[r].Some? {
        var a := SharerExists(st.areas, r);
      }
    }
    NothingListed(st.records);
  }

  lemma {:induction false} NothingListed(records: seq<Option<Record>>)
    requires forall r :: 0 <= r < |records| ==> records[r] == None
    ensures Listed(records) == multiset{}
  {
    if records != [] {
      NothingListed(records[..|records| - 1]);
    }
  }

  // ---------- Whose page it is ----------

  // The frame that an event records on the list of record r.
  function RecordedOn(st: State, e: Event, r: nat): seq<nat>
    requires Enabled(st, e)
  {
    if e.Fault? && e.frame.Some? && e.remapped && st.areas[e.area] == Some(r) then [e.frame.value] else []
  }

  // The frames of the faults of a run in areas of record r, latest first.
  function Faulted(st: State, run: seq<Event>, r: nat): seq<nat>
    requires Feasible(st, run)
    decreases |run|
  {
    if run == [] then [] else Faulted(Apply(st, run[0]), run[1..], r) + RecordedOn(st, run[0], r)
  }

  predicate LiveRecord(st: State, r: nat) {
    r < |st.records| && st.records[r].Some?
  }

  lemma StepLists(st: State, e: Event, r: nat)
    requires Enabled(st, e)
    ensures var after := Apply(st, e);
            && |after.records| >= |st.records|
            && (r >= |st.records| ==> RecordedOn(st, e, r) == [])
            && (LiveRecord(after, r) ==>
                  if r >= |st.records| then after.records[r].value.pages == []
                  else LiveRecord(st, r)
                       && after.records[r].value.pages == RecordedOn(st, e, r) + st.records[r].value.pages)
  {
  }

  lemma {:induction false} ListsGrow(st: State, run: seq<Event>, r: nat)
    requires Feasible(st, run)
    ensures |Exec(st, run).records| >= |st.records|
    ensures LiveRecord(Exec(st, run), r) && r < |st.records| ==>
              LiveRecord(st, r) && Exec(st, run).records[r].value.pages == Faulted(st, run, r) + st.records[r].value.pages
    ensures LiveRecord(Exec(st, run), r) && r >= |st.records| ==>
              Exec(st, run).records[r].value.pages == Faulted(st, run, r)
    decreases |run|
  {
    hide Apply, Enabled;
    if run != [] {
      var later := Faulted(Apply(st, run[0]), run[1..], r);
      StepLists(st, run[0], r);
      ListsGrow(Apply(st, run[0]), run[1..], r);
      assert later + [] == later;
      if r < |st.records| && st.records[r].Some? {
        var on, before := RecordedOn(st, run[0], r), st.records[r].value.pages;
        assert later + (on + before) == (later + on) + before;
      }
    }
  }

  // In every run the list of a live record is the frames of the faults in its areas, latest first.
  lemma RecordLists(run: seq<Event>, r: nat)
    requires Feasible(INITIAL, run) && LiveRecord(Exec(INITIAL, run), r)
    ensures Exec(INITIAL, run).records[r].value.pages == Faulted(INITIAL, run, r)
  {
    ListsGrow(INITIAL, run, r);
  }

  // An area keeps its record until it is closed.
  lemma {:induction false} AreaKeepsRecord(st: State, run: seq<Event>, a: nat)
    requires Feasible(st, run) && a < |st.areas|
    ensures |Exec(st, run).areas| >= |st.areas|
    ensures Exec(st, run).areas[a] == st.areas[a] || Exec(st, run).areas[a] == None
    decreases |run|
  {
    if run != [] {
      AreaKeepsRecord(Apply(st, run[0]), run[1..], a);
    }
  }

  // A copied area has the record of the area it copies, and a mapped area a record of its own.
  lemma NewArea(st: State, a: nat)
    requires Inv(st) && LiveArea(st, a)
    ensures var copied := Apply(st, Open(a));
            copied.areas == st.areas + [st.areas[a]] && LiveArea(copied, |st.areas|)
    ensures var mapped := Apply(st, Mmap);
            && LiveArea(mapped, |st.areas|)
            && forall b :: 0 <= b < |st.areas| ==> mapped.areas[b] != mapped.areas[|st.areas|]
  {
  }

  // As long as the area is open, a page on its list stays there and in the module's hands.
  lemma {:induction false} PageStays(st: State, run: seq<Event>, a: nat, f: nat)
    requires Inv(st) && Feasible(st, run) && LiveArea(st, a) && f in RecordOf(st, a).pages
    ensures var after := Exec(st, run);
            && a < |after.areas|
            && (after.areas[a].Some? ==> LiveArea(after, a) && f in RecordOf(after, a).pages && f in after.held)
  {
    var after := Exec(st, run);
    hide Exec, Feasible, Listed;
    RunKeepsInv(st, run);
    AreaKeepsRecord(st, run, a);
    if after.areas[a].Some? {
      var r := st.areas[a].value;
      ListsGrow(st, run, r);
      assert LiveRecord(after, r) && f in after.records[r].value.pages;
      ListedIsHeld(after, r, f);
    }
  }

  lemma ListedIsHeld(st: State, r: nat, f: nat)
    requires Inv(st) && LiveRecord(st, r) && f in st.records[r].value.pages
    ensures f in st.held
  {
    hide Listed;
    ListedUpdate(st.records, r, None);
    assert f in PagesOf(st.records[r]);
    assert f in Listed(st.records);
  }

  // In every run a page that a fault has mapped is on the list of its own area's record, and is not
  // given back, for as long as that area is open.
  lemma FaultedPageHeld(run: seq<Event>, a: nat, f: nat, rest: seq<Event>)
    requires Feasible(INITIAL, run) && Enabled(Exec(INITIAL, run), Fault(a, Some(f), true))
    requires Feasible(Apply(Exec(INITIAL, run), Fault(a, Some(f), true)), rest)
    ensures var after := Exec(Apply(Exec(INITIAL, run), Fault(a, Some(f), true)), rest);
            && a < |after.areas|
            && (after.areas[a].Some? ==> LiveArea(after, a) && f in RecordOf(after, a).pages && f in after.held)
  {
    var mid := Exec(INITIAL, run);
    InvInitial();
    RunKeepsInv(INITIAL, run);
    StepKeepsInv(mid, Fault(a, Some(f), true));
    PageStays(Apply(mid, Fault(a, Some(f), true)), rest, a, f);
  }

  // ---------- What stays behind ----------

  // A page fault whose frame could not be mapped.
  predicate FailsToMap(e: Event) {
    e.Fault? && e.frame.Some? && !e.remapped
  }

  // The frames of those faults.
  function Unmapped(run: seq<Event>): set<nat> {
    if run == [] then {}
    else (if FailsToMap(run[0]) then {run[0].frame.value} else {}) + Unmapped(run[1..])
  }

  lemma {:induction false} NoneUnmapped(run: seq<Event>)
    ensures Unmapped(run) == {} <==> forall e :: e in run ==> !FailsToMap(e)
  {
    if run != [] {
      NoneUnmapped(run[1..]);
      assert forall e :: e in run <==> e == run[0] || e in run[1..];
      assert FailsToMap(run[0]) ==> run[0].frame.value in Unmapped(run);
    }
  }

  lemma {:induction false} StrayIsUnmapped(st: State, run: seq<Event>)
    requires Feasible(st, run)
    ensures Exec(st, run).stray == st.stray + Unmapped(run)
    decreases |run|
  {
    if run != [] {
      StrayIsUnmapped(Apply(st, run[0]), run[1..]);
    }
  }

  // When no area is left the module still holds exactly the frames that could not be mapped: it
  // has given everything back if and only if every fault that got a frame could map it.
  lemma FramesStayBehind(run: seq<Event>)
    requires Feasible(INITIAL, run)
    requires var areas := Exec(INITIAL, run).areas; forall a :: 0 <= a < |areas| ==> areas[a] == None
    ensures Exec(INITIAL, run).held == Unmapped(run)
    ensures Exec(INITIAL, run).held == {} <==> forall e :: e in run ==> !FailsToMap(e)
  {
    NothingLeft(run);
    StrayIsUnmapped(INITIAL, run);
    NoneUnmapped(run);
  }

  lemma OneFrameStays()
    ensures var run := [Mmap, Fault(0, Some(7), false), Close(0)];
            && Feasible(INITIAL, run) && Exec(INITIAL, run).areas == [None]
            && Exec(INITIAL, run).allocNumber == Exec(INITIAL, run).freeNumber
            && Exec(INITIAL, run).held == {7}
  {
    var fault, close := Fault(0, Some(7), false), Close(0);
    assert [Mmap, fault, close][1..] == [fault, close];
    assert [fault, close][1..] == [close];
    assert [close][1..] == [];
  }

  // ---------- The module, updated in place ----------

  class PagingModule {
    var areas: seq<Option<nat>>
    var records: seq<Option<Record>>
    var allocNumber: int
    var freeNumber: int
    var held: set<nat>
    ghost var stray: set<nat>
    ghost var recorded: multiset<nat>
    ghost var freed: multiset<nat>
    ghost var run: seq<Event>

    // The module is where a feasible run from its start has brought it.
    ghost predicate Valid()
      reads this
    {
      Feasible(INITIAL, run) && Exec(INITIAL, run) == View()
    }

    ghost function View(): State
      reads this
    {
      State(areas, records, allocNumber, freeNumber, held, stray, recorded, freed)
    }

    constructor ()
      ensures Valid() && run == [] && View() == INITIAL
    {
      areas, records := [], [];
      allocNumber, freeNumber := 0, 0;
      held := {};
      stray, recorded, freed := {}, multiset{}, multiset{};
      run := [];
    }

    method PagingMmap()
      requires Valid()
      modifies this
      ensures Valid() && run == old(run) + [Mmap] && View() == Apply(old(View()), Mmap)
    {
      hide Inv, Feasible, Exec;
      ExecNext(INITIAL, run, Mmap);
      run := run + [Mmap];
      areas := areas + [Some(|records|)];
      records := records + [Some(Record(1, []))];
    }

    method PagingVmaOpen(a: nat)
      requires Valid() && LiveArea(View(), a)
      modifies this
      ensures Valid() && run == old(run) + [Open(a)] && View() == Apply(old(View()), Open(a))
    {
      hide Inv, Feasible, Exec;
      ExecNext(INITIAL, run, Open(a));
      run := run + [Open(a)];
      var cur := records[areas[a].value].value;
      records := records[areas[a].value := Some(cur.(reference := cur.reference + 1))];
      areas := areas + [areas[a]];
    }

    method DoFault(a: nat, frame: Option<nat>, remapResult: int) returns (r: FaultResult)
      requires Valid() && LiveArea(View(), a) && (frame.Some? ==> frame.value !in held)
      modifies this
      ensures Valid() && run == old(run) + [Fault(a, frame, remapResult != -1)]
      ensures View() == Apply(old(View()), Fault(a, frame, remapResult != -1))
      ensures r == (if frame == None then Oom else if remapResult == -1 then SigBus else NoPage)
    {
      hide Inv, Feasible, Exec;
      ExecNext(INITIAL, run, Fault(a, frame, remapResult != -1));
      run := run + [Fault(a, frame, remapResult != -1)];
      if frame == None {
        return Oom;
      }
      held := held + {frame.value};
      if remapResult == -1 {
        stray := stray + {frame.value};
        return SigBus;
      }
      allocNumber := allocNumber + 1;
      recorded := recorded + multiset{frame.value};
      var cur := records[areas[a].value].value;
      records := records[areas[a].value := Some(cur.(pages := [frame.value] + cur.pages))];
      return NoPage;
    }

    // Only a frame that is still held may be given back.
    method FreePage(f: nat)
      requires f in held
      modifies this`held, this`freed
      ensures held == old(held) - {f} && freed == old(freed) + multiset{f}
    {
      held := held - {f};
      freed := freed + multiset{f};
    }

    // The walk over the page list of a record.
    method FreePages(pages: seq<nat>)
      requires forall i :: 0 <= i < |pages| ==> pages[i] in held
      requires forall i, k :: 0 <= i < k < |pages| ==> pages[i] != pages[k]
      modifies this`held, this`freed, this`freeNumber
      ensures held == old(held) - (set f | f in pages)
      ensures freed == old(freed) + multiset(pages) && freeNumber == old(freeNumber) + |pages|
    {
      for p := 0 to |pages|
        invariant held == old(held) - (set f | f in pages[..p])
        invariant freed == old(freed) + multiset(pages[..p]) && freeNumber == old(freeNumber) + p
      {
        assert pages[..p + 1] == pages[..p] + [pages[p]];
        FreePage(pages[p]);
        freeNumber := freeNumber + 1;
      }
      assert pages[..|pages|] == pages;
    }

    method PagingVmaClose(a: nat)
      requires Valid() && LiveArea(View(), a)
      modifies this
      ensures Valid() && run == old(run) + [Close(a)] && View() == Apply(old(View()), Close(a))
    {
      hide Inv, Feasible, Exec;
      RunHoldsPages(run, a);
      ExecNext(INITIAL, run, Close(a));
      run := run + [Close(a)];
      var cur := records[areas[a].value].value;
      var reference := cur.reference - 1;
      if reference == 0 {
        FreePages(cur.pages);
        records := records[areas[a].value := None];
      } else {
        records := records[areas[a].value := Some(cur.(reference := reference))];
      }
      areas := areas[a := None];
    }
  }

  lemma RunHoldsPages(run: seq<Event>, a: nat)
    requires Feasible(INITIAL, run) && LiveArea(Exec(INITIAL, run), a)
    ensures var st := Exec(INITIAL, run);
            var pages := RecordOf(st, a).pages;
            && (forall i :: 0 <= i < |pages| ==> pages[i] in st.held)
            && (forall i, k :: 0 <= i < k < |pages| ==> pages[i] != pages[k])
  {
    InvInitial();
    RunKeepsInv(INITIAL, run);
    PagesHeldOnce(Exec(INITIAL, run), a);
  }

  // The pages of a live area's record are distinct and held.
  lemma PagesHeldOnce(st: State, a: nat)
    requires Inv(st) && LiveArea(st, a)
    ensures var pages := RecordOf(st, a).pages;
            && (forall i :: 0 <= i < |pages| ==> pages[i] in st.held)
            && (forall i, k :: 0 <= i < k < |pages| ==> pages[i] != pages[k])
  {
    var pages := RecordOf(st, a).pages;
    ListedUpdate(st.records, st.areas[a].value, None);
    assert multiset(pages) <= Listed(st.records);
    forall i | 0 <= i < |pages|
      ensures pages[i] in st.held
    {
      assert pages[i] in multiset(pages);
    }
    forall i, k | 0 <= i < k < |pages|
      ensures pages[i] != pages[k]
    {
      if pages[i] == pages[k] {
        ListedTwice(pages, i, k);
      }
    }
  }
}
