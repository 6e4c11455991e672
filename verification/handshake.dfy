// The shared-memory handshake of a leader and a follower, one access to the region at a time.
module Handshake {

  // The leader's program points. The copy at CopyIn(i) has i elements behind it.
  datatype LeaderPc =
    | CheckRead | CheckWrite | CheckDelete
    | ResetDelete | ResetWrite | ResetRead
    | AwaitFollower
    | CopyIn(i: nat)
    | AwaitReader
    | Destroyed
    | Refused

  datatype FollowerPc =
    | Announce
    | AwaitData
    | CopyOut(j: nat)
    | Finished

  datatype State = State(
    writeGuard: int, readGuard: int, deleteGuard: int,
    data: seq<int>,
    leader: LeaderPc, source: seq<int>,
    follower: FollowerPc, copy: seq<int>)

  datatype Process = Leader | Follower

  predicate Sized(st: State) {
    && |st.data| == |st.source| == |st.copy|
    && (st.leader.CopyIn? ==> st.leader.i <= |st.source|)
    && (st.follower.CopyOut? ==> st.follower.j <= |st.source|)
  }

  // ---------- Steps ----------

  function LeaderNext(st: State): State
    requires Sized(st)
  {
    match st.leader
    case CheckRead => st.(leader := if st.readGuard != 0 then Refused else CheckWrite)
    case CheckWrite => st.(leader := if st.writeGuard != 0 then Refused else CheckDelete)
    case CheckDelete => st.(leader := if st.deleteGuard != 0 then Refused else ResetDelete)
    case ResetDelete => st.(deleteGuard := 0, leader := ResetWrite)
    case ResetWrite => st.(writeGuard := 0, leader := ResetRead)
    case ResetRead => st.(readGuard := 0, leader := AwaitFollower)
    case AwaitFollower => if st.writeGuard == 0 then st else st.(leader := CopyIn(0))
    case CopyIn(i) =>
      if i < |st.source| then st.(data := st.data[i := st.source[i]], leader := CopyIn(i + 1))
      else st.(readGuard := 1, leader := AwaitReader)
    case AwaitReader => if st.deleteGuard == 0 then st else st.(leader := Destroyed)
    case Destroyed => st
    case Refused => st
  }

  function FollowerNext(st: State): State
    requires Sized(st)
  {
    match st.follower
    case Announce => st.(writeGuard := 1, follower := AwaitData)
    case AwaitData => if st.readGuard == 0 then st else st.(follower := CopyOut(0))
    case CopyOut(j) =>
      if j < |st.source| then st.(copy := st.copy[j := st.data[j]], follower := CopyOut(j + 1))
      else st.(deleteGuard := 1, follower := Finished)
    case Finished => st
  }

  function Next(st: State, p: Process): (after: State)
    requires Sized(st)
    ensures Sized(after) && after.source == st.source
  {
    match p
    case Leader => LeaderNext(st)
    case Follower => FollowerNext(st)
  }

  // An interleaving is the sequence of processes that take the turns.
  function Run(st: State, turns: seq<Process>): (after: State)
    requires Sized(st)
    ensures Sized(after) && after.source == st.source
    decreases |turns|
  {
    if turns == [] then st else Run(Next(st, turns[0]), turns[1..])
  }

  lemma {:induction false} RunNext(st: State, turns: seq<Process>, p: Process)
    requires Sized(st)
    ensures Run(st, turns + [p]) == Next(Run(st, turns), p)
    decreases |turns|
  {
    if turns == [] {
      assert [p][1..] == [];
      assert turns + [p] == [p];
    } else {
      RunNext(Next(st, turns[0]), turns[1..], p);
      assert (turns + [p])[1..] == turns[1..] + [p];
    }
  }

  // A fresh region is zeroed; the payload and the follower's buffer are arbitrary.
  predicate Initial(st: State) {
    && Sized(st) && st.writeGuard == 0 && st.readGuard == 0 && st.deleteGuard == 0
    && st.leader == CheckRead && st.follower == Announce
  }

  // ---------- Safety ----------

  // The leader has signalled that the data is written, and has not given up.
  predicate Signalled(pc: LeaderPc) {
    pc.AwaitReader? || pc.Destroyed?
  }

  // The leader may still write elements of the region.
  predicate MayWrite(pc: LeaderPc) {
    !Signalled(pc) && !pc.Refused?
  }

  predicate Inv(st: State) {
    && Sized(st)
    && (st.readGuard != 0 ==> Signalled(st.leader))
    && (st.deleteGuard != 0 ==> st.follower.Finished?)
    && (st.leader.CopyIn? ==> st.data[..st.leader.i] == st.source[..st.leader.i])
    && (Signalled(st.leader) ==> st.data == st.source)
    && (st.follower.CopyOut? || st.follower.Finished? ==> st.readGuard != 0)
    && (st.follower.CopyOut? ==> st.copy[..st.follower.j] == st.source[..st.follower.j])
    && (st.follower.Finished? ==> st.copy == st.source)
    && (st.leader.Destroyed? ==> st.follower.Finished?)
  }

  lemma InvInitial(st: State)
    requires Initial(st)
    ensures Inv(st)
  {
  }

  lemma LeaderKeepsInv(st: State)
    requires Inv(st)
    ensures Inv(LeaderNext(st))
  {
    if st.leader.CopyIn? {
      var i, after := st.leader.i, LeaderNext(st);
      if i < |st.source| {
        assert after.data[..i + 1] == st.data[..i] + [st.source[i]];
        assert st.source[..i + 1] == st.source[..i] + [st.source[i]];
      } else {
        assert st.data[..i] == st.data && st.source[..i] == st.source;
      }
    }
  }

  lemma FollowerKeepsInv(st: State)
    requires Inv(st)
    ensures Inv(FollowerNext(st))
  {
    if st.follower.CopyOut? {
      var j, after := st.follower.j, FollowerNext(st);
      if j < |st.source| {
        assert after.copy[..j + 1] == st.copy[..j] + [st.data[j]];
        assert st.source[..j + 1] == st.source[..j] + [st.source[j]];
      } else {
        assert st.copy[..j] == st.copy && st.source[..j] == st.source;
      }
    }
  }

  lemma {:induction false} RunKeepsInv(st: State, turns: seq<Process>)
    requires Inv(st)
    ensures Inv(Run(st, turns))
    decreases |turns|
  {
    if turns != [] {
      if turns[0] == Leader {
        LeaderKeepsInv(st);
      } else {
        FollowerKeepsInv(st);
      }
      RunKeepsInv(Next(st, turns[0]), turns[1..]);
    }
  }

  // In every interleaving the follower reads only when the leader can no longer write, its
  // finished copy is the leader's array, and the region is destroyed only after that.
  lemma HandshakeSafety(st: State, turns: seq<Process>)
    requires Initial(st)
    ensures var after := Run(st, turns);
            && (after.follower.CopyOut? ==> !MayWrite(after.leader) && after.data == st.source)
            && (after.follower.Finished? ==> after.copy == st.source)
            && (after.leader.Destroyed? ==> after.follower.Finished?)
            && (after.leader.Refused? ==> after.follower.Announce? || after.follower.AwaitData?)
  {
    InvInitial(st);
    RunKeepsInv(st, turns);
  }

  // ---------- Refusal ----------

  // Before the leader has got past its check of the write guard, the guard tells whether the follower
  // has announced itself.
  predicate EarlyGuard(st: State) {
    st.leader.CheckRead? || st.leader.CheckWrite? ==> (st.writeGuard != 0 <==> !st.follower.Announce?)
  }

  lemma {:induction false} EarlyGuardStays(st: State, turns: seq<Process>)
    requires Sized(st) && EarlyGuard(st)
    ensures EarlyGuard(Run(st, turns))
    decreases |turns|
  {
    if turns != [] {
      EarlyGuardStays(Next(st, turns[0]), turns[1..]);
    }
  }

  // On a fresh region a turn makes the leader refuse if and only if it is its check of the write guard
  // and the follower has already announced itself.
  lemma RefusesExactly(start: State, turns: seq<Process>, p: Process)
    requires Initial(start)
    ensures var st := Run(start, turns);
            !st.leader.Refused? && Next(st, p).leader.Refused?
            <==> p == Leader && st.leader.CheckWrite? && !st.follower.Announce?
  {
    InvInitial(start);
    RunKeepsInv(start, turns);
    EarlyGuardStays(start, turns);
  }

  // The leader has still to check a guard that is set.
  predicate WillRefuse(st: State) {
    match st.leader
    case CheckRead => st.readGuard != 0 || st.writeGuard != 0 || st.deleteGuard != 0
    case CheckWrite => st.writeGuard != 0 || st.deleteGuard != 0
    case CheckDelete => st.deleteGuard != 0
    case _ => st.leader.Refused?
  }

  function LeaderTurns(turns: seq<Process>): nat {
    if turns == [] then 0 else (if turns[0] == Leader then 1 else 0) + LeaderTurns(turns[1..])
  }

  function ChecksLeft(pc: LeaderPc): nat {
    match pc
    case CheckRead => 3
    case CheckWrite => 2
    case CheckDelete => 1
    case _ => 0
  }

  // On a region with a guard set, whatever the follower does, the leader writes nothing and has
  // refused after three turns at the latest.
  lemma {:induction false} UsedRegionIsRefused(st: State, turns: seq<Process>)
    requires Sized(st) && WillRefuse(st)
    ensures var after := Run(st, turns);
            && WillRefuse(after) && after.data == st.data
            && (LeaderTurns(turns) >= ChecksLeft(st.leader) ==> after.leader.Refused?)
    decreases |turns|
  {
    if turns != [] {
      UsedRegionIsRefused(Next(st, turns[0]), turns[1..]);
    }
  }

  // ---------- Progress ----------

  predicate Done(st: State) {
    st.leader.Destroyed? && st.follower.Finished?
  }

  function LeaderLeft(st: State): nat
    requires Sized(st)
  {
    var n := |st.source|;
    match st.leader
    case CheckRead => n + 9
    case CheckWrite => n + 8
    case CheckDelete => n + 7
    case ResetDelete => n + 6
    case ResetWrite => n + 5
    case ResetRead => n + 4
    case AwaitFollower => n + 3
    case CopyIn(i) => n - i + 2
    case AwaitReader => 1
    case Destroyed => 0
    case Refused => 0
  }

  function FollowerLeft(st: State): nat
    requires Sized(st)
  {
    var n := |st.source|;
    match st.follower
    case Announce => n + 3
    case AwaitData => n + 2
    case CopyOut(j) => n - j + 1
    case Finished => 0
  }

  // The steps both processes still have to take.
  function Measure(st: State): nat
    requires Sized(st)
  {
    LeaderLeft(st) + FollowerLeft(st)
  }

  // The leader will no longer clear the write guard, nor refuse.
  predicate PastReset(pc: LeaderPc) {
    pc.ResetRead? || pc.AwaitFollower? || pc.CopyIn? || Signalled(pc)
  }

  // The follower's announcement is still to come, or has not been lost.
  predicate Live(st: State) {
    && PastReset(st.leader)
    && (!st.follower.Announce? && (st.leader.ResetRead? || st.leader.AwaitFollower?) ==> st.writeGuard != 0)
    && (Signalled(st.leader) ==> st.readGuard != 0)
    && (st.follower.Finished? ==> st.deleteGuard != 0)
    && (st.leader.CopyIn? || Signalled(st.leader) ==> !st.follower.Announce?)
    && (st.writeGuard != 0 ==> !st.follower.Announce?)
  }

  // A turn either spins, changing nothing, or is one step fewer to take.
  lemma TurnSpinsOrDecreases(st: State, p: Process)
    requires Inv(st) && Live(st)
    ensures Live(Next(st, p))
    ensures Next(st, p) == st || Measure(Next(st, p)) == Measure(st) - 1
  {
  }

  // In an unfinished state some process has a step to take.
  lemma SomeoneMoves(st: State)
    requires Inv(st) && Live(st) && !Done(st)
    ensures Next(st, Leader) != st || Next(st, Follower) != st
  {
  }

  // A fair round gives each process at least one turn.
  predicate FairRound(turns: seq<Process>) {
    Leader in turns && Follower in turns
  }

  lemma {:induction false} TurnsDecrease(st: State, turns: seq<Process>)
    requires Inv(st) && Live(st)
    ensures Live(Run(st, turns))
    ensures Measure(Run(st, turns)) <= Measure(st)
    ensures Run(st, turns) == st || Measure(Run(st, turns)) < Measure(st)
    ensures Measure(Run(st, turns)) == Measure(st) ==> forall p :: p in turns ==> Next(st, p) == st
    decreases |turns|
  {
    if turns != [] {
      var next := Next(st, turns[0]);
      TurnSpinsOrDecreases(st, turns[0]);
      RunKeepsInv(st, [turns[0]]);
      assert Run(st, [turns[0]]) == Run(next, []) == next;
      TurnsDecrease(next, turns[1..]);
      assert forall p :: p in turns ==> p == turns[0] || p in turns[1..];
    }
  }

  function RunRounds(st: State, rounds: seq<seq<Process>>): (after: State)
    requires Sized(st)
    ensures Sized(after)
    decreases |rounds|
  {
    if rounds == [] then st else RunRounds(Run(st, rounds[0]), rounds[1..])
  }

  lemma {:induction false} DoneStays(st: State, rounds: seq<seq<Process>>)
    requires Inv(st) && Live(st) && Measure(st) == 0
    ensures Done(RunRounds(st, rounds))
    decreases |rounds|
  {
    if rounds != [] {
      TurnsDecrease(st, rounds[0]);
      DoneStays(st, rounds[1..]);
    }
  }

  // Under fair scheduling both sides finish, within as many rounds as there are steps left.
  lemma {:induction false} FairRunsFinish(st: State, rounds: seq<seq<Process>>)
    requires Inv(st) && Live(st) && |rounds| >= Measure(st)
    requires forall r :: r in rounds ==> FairRound(r)
    ensures Done(RunRounds(st, rounds))
    decreases |rounds|
  {
    if Measure(st) == 0 {
      DoneStays(st, rounds);
    } else {
      var turns := rounds[0];
      assert FairRound(turns);
      assert !Done(st);
      SomeoneMoves(st);
      TurnsDecrease(st, turns);
      RunKeepsInv(st, turns);
      FairRunsFinish(Run(st, turns), rounds[1..]);
    }
  }

  // ---------- An announcement that comes too early ----------

  // The follower waits for data that no leader will ever announce.
  predicate Dead(st: State) {
    && st.follower == AwaitData && st.readGuard == 0
    && (MayWrite(st.leader) ==>
          !st.leader.CopyIn? && (st.leader.ResetRead? || st.leader.AwaitFollower? ==> st.writeGuard == 0))
    && !Signalled(st.leader)
  }

  lemma {:induction false} DeadStays(st: State, turns: seq<Process>)
    requires Sized(st) && Dead(st)
    ensures Dead(Run(st, turns)) && !Done(Run(st, turns))
    decreases |turns|
  {
    if turns != [] {
      DeadStays(Next(st, turns[0]), turns[1..]);
    }
  }

  // The announcement is in time exactly when the leader has already cleared the write guard:
  // then every fair run finishes, and otherwise no run does.
  lemma AnnouncementInTime(start: State, turns: seq<Process>)
    requires Initial(start) && Run(start, turns).follower.Announce?
    ensures var st := Run(start, turns);
            var after := Next(st, Follower);
            && Inv(after)
            && (Live(after) <==> PastReset(st.leader))
            && (Dead(after) <==> !PastReset(st.leader))
  {
    InvInitial(start);
    RunKeepsInv(start, turns);
    BeforeAnnouncement(start, turns);
    FollowerKeepsInv(Run(start, turns));
  }

  // Until the follower announces itself the leader cannot get past its first wait.
  lemma {:induction false} BeforeAnnouncement(st: State, turns: seq<Process>)
    requires Inv(st) && Quiet(st) && Run(st, turns).follower.Announce?
    ensures Quiet(Run(st, turns))
    decreases |turns|
  {
    if turns != [] {
      if turns[0] == Follower {
        AnnouncedStays(Next(st, Follower), turns[1..]);
      } else {
        LeaderKeepsInv(st);
        BeforeAnnouncement(Next(st, turns[0]), turns[1..]);
      }
    }
  }

  predicate Quiet(st: State) {
    && st.follower.Announce? && st.writeGuard == 0 && st.readGuard == 0
    && !st.leader.CopyIn? && !Signalled(st.leader) && !st.leader.Refused?
  }

  lemma {:induction false} AnnouncedStays(st: State, turns: seq<Process>)
    requires Sized(st) && !st.follower.Announce?
    ensures !Run(st, turns).follower.Announce?
    decreases |turns|
  {
    if turns != [] {
      AnnouncedStays(Next(st, turns[0]), turns[1..]);
    }
  }

  // A run that goes on after the announcement: in time, fairness is enough to finish it;
  // too early, nothing is.
  lemma HandshakeFinishes(start: State, turns: seq<Process>, rounds: seq<seq<Process>>, rest: seq<Process>)
    requires Initial(start) && Run(start, turns).follower.Announce?
    requires forall r :: r in rounds ==> FairRound(r)
    ensures var st := Run(start, turns);
            var after := Next(st, Follower);
            && (PastReset(st.leader) && |rounds| >= Measure(after) ==> Done(RunRounds(after, rounds)))
            && (!PastReset(st.leader) ==> !Done(Run(after, rest)))
  {
    AnnouncementInTime(start, turns);
    var st := Run(start, turns);
    var after := Next(st, Follower);
    if PastReset(st.leader) {
      if |rounds| >= Measure(after) {
        FairRunsFinish(after, rounds);
      }
    } else {
      DeadStays(after, rest);
    }
  }

  // ---------- The region and the two processes, updated in place ----------

  class Exchange {
    var writeGuard: int
    var readGuard: int
    var deleteGuard: int
    const data: array<int>
    const source: seq<int>
    const copy: array<int>
    var leader: LeaderPc
    var follower: FollowerPc
    ghost const origin: State
    ghost var turns: seq<Process>

    // The processes are where an interleaving from the initial state has brought them.
    ghost predicate Valid()
      reads this, data, copy
    {
      data != copy && Initial(origin) && Run(origin, turns) == View()
    }

    function View(): State
      reads this, data, copy
    {
      State(writeGuard, readGuard, deleteGuard, data[..], leader, source, follower, copy[..])
    }

    constructor (source: seq<int>)
      ensures Valid() && Initial(View()) && View().source == source && fresh(data) && fresh(copy)
    {
      writeGuard, readGuard, deleteGuard := 0, 0, 0;
      var region, buffer := new int[|source|], new int[|source|];
      data, copy := region, buffer;
      this.source := source;
      leader, follower := CheckRead, Announce;
      origin := State(0, 0, 0, region[..], CheckRead, source, Announce, buffer[..]);
      turns := [];
    }

    // One access of the leader to the region.
    method LeaderTurn()
      requires Valid()
      modifies this, data
      ensures Valid() && turns == old(turns) + [Leader] && View() == LeaderNext(old(View()))
    {
      RunNext(origin, turns, Leader);
      turns := turns + [Leader];
      match leader
      case CheckRead => leader := if readGuard != 0 then Refused else CheckWrite;
      case CheckWrite => leader := if writeGuard != 0 then Refused else CheckDelete;
      case CheckDelete => leader := if deleteGuard != 0 then Refused else ResetDelete;
      case ResetDelete => deleteGuard, leader := 0, ResetWrite;
      case ResetWrite => writeGuard, leader := 0, ResetRead;
      case ResetRead => readGuard, leader := 0, AwaitFollower;
      case AwaitFollower =>
        if writeGuard != 0 {
          leader := CopyIn(0);
        }
      case CopyIn(i) =>
        if i < data.Length {
          data[i] := source[i];
          leader := CopyIn(i + 1);
        } else {
          readGuard, leader := 1, AwaitReader;
        }
      case AwaitReader =>
        if deleteGuard != 0 {
          leader := Destroyed;
        }
      case Destroyed =>
      case Refused =>
    }

    // One access of the follower to the region.
    method FollowerTurn()
      requires Valid()
      modifies this, copy
      ensures Valid() && turns == old(turns) + [Follower] && View() == FollowerNext(old(View()))
    {
      RunNext(origin, turns, Follower);
      turns := turns + [Follower];
      match follower
      case Announce => writeGuard, follower := 1, AwaitData;
      case AwaitData =>
        if readGuard != 0 {
          follower := CopyOut(0);
        }
      case CopyOut(j) =>
        if j < copy.Length {
          copy[j] := data[j];
          follower := CopyOut(j + 1);
        } else {
          deleteGuard, follower := 1, Finished;
        }
      case Finished =>
    }
  }
}
