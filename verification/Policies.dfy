/** Which residents a plan evicts, in what order, told from the program alone. */
module Policies {
  import opened Fhn
  import opened Sets
  import opened MovementPlan
  import opened Residency
  import opened BeladyOptimality

  // ----- what the policies look at -----

  /** The last position before `i` whose instruction reads or writes `x`, or -1. */
  function LastUse(p: Program, x: Id, i: nat): (pos: int)
    requires i <= |p.insts|
  {
    if i == 0 then -1 else if x in WorkingSet(p.insts[i - 1]) then i - 1 else LastUse(p, x, i - 1)
  }

  lemma {:induction false} LastUseIsLast(p: Program, x: Id, i: nat)
    requires i <= |p.insts|
    ensures -1 <= LastUse(p, x, i) < i
    ensures LastUse(p, x, i) >= 0 ==> x in WorkingSet(p.insts[LastUse(p, x, i)])
    ensures forall k :: LastUse(p, x, i) < k < i ==> x !in WorkingSet(p.insts[k])
  {
    hide WorkingSet;
    if i > 0 && x !in WorkingSet(p.insts[i - 1]) {
      LastUseIsLast(p, x, i - 1);
    }
  }

  /** `a` was used less recently than `b`; the lower id on ties. */
  predicate LessRecent(p: Program, i: nat, a: Id, b: Id)
    requires i <= |p.insts|
  {
    LastUse(p, a, i) < LastUse(p, b, i) || (LastUse(p, a, i) == LastUse(p, b, i) && a < b)
  }

  /** `a` is next read later than `b`; the lower id on ties. */
  predicate ReadLater(p: Program, i: nat, a: Id, b: Id) {
    NextUse(p, a, i) > NextUse(p, b, i) || (NextUse(p, a, i) == NextUse(p, b, i) && a < b)
  }

  /** The order in which a policy gives residents up. */
  predicate GivenUpBefore(policy: Policy, p: Program, i: nat, a: Id, b: Id)
    requires i <= |p.insts|
  {
    match policy
    case Belady => ReadLater(p, i, a, b)
    case Lru => LessRecent(p, i, a, b)
  }

  // ----- the planner's bookkeeping -----

  lemma TouchedIs(before: map<Id, int>, s: set<Id>, i: int, x: Id)
    ensures x in s ==> x in Touched(before, s, i) && Touched(before, s, i)[x] == i
    ensures x !in s ==> (x in Touched(before, s, i) <==> x in before)
    ensures x !in s && x in before ==> Touched(before, s, i)[x] == before[x]
  {
  }

  /** The touch positions a run keeps are the last uses. */
  lemma {:induction false} TouchIsLastUse(c: Config, t: seq<State>, i: nat, x: Id)
    requires Valid(c.p) && IsRun(c, t) && i < |t|
    ensures i <= |c.p.insts|
    ensures (if x in t[i].lastTouch then t[i].lastTouch[x] else -1) == LastUse(c.p, x, i)
  {
    hide *;
    if i == 0 {
      NothingTouched(c, t, x);
    } else {
      RunLink(c, t, i - 1);
      StepEffect(c, i - 1, t[i - 1]);
      TouchIsLastUse(c, t, i - 1, x);
      TouchedIs(t[i - 1].lastTouch, WorkingSet(c.p.insts[i - 1]), i - 1, x);
      LastUseStep(c.p, x, i);
    }
  }

  lemma NothingTouched(c: Config, t: seq<State>, x: Id)
    requires IsRun(c, t)
    ensures x !in t[0].lastTouch && LastUse(c.p, x, 0) == -1
  {
  }

  lemma LastUseStep(p: Program, x: Id, i: nat)
    requires 0 < i <= |p.insts|
    ensures LastUse(p, x, i) == if x in WorkingSet(p.insts[i - 1]) then i - 1 else LastUse(p, x, i - 1)
  {
    hide WorkingSet;
  }

  /** Nothing is resident that was never used. */
  lemma {:induction false} ResidentsWereUsed(c: Config, t: seq<State>, i: nat, x: Id)
    requires Valid(c.p) && IsRun(c, t) && i < |t| && x in t[i].resident
    ensures i <= |c.p.insts| && LastUse(c.p, x, i) >= 0
  {
    hide *;
    RunBegins(c, t);
    if i > 0 {
      RunEffect(c, t, i - 1);
      LastUseStep(c.p, x, i);
      DeviceIs(c, i - 1, t[i - 1], MakeRoom(c, i - 1, t[i - 1]).value);
      if x !in WorkingSet(c.p.insts[i - 1]) {
        ResidentsWereUsed(c, t, i - 1, x);
      }
    }
  }

  lemma RunBegins(c: Config, t: seq<State>)
    requires IsRun(c, t)
    ensures t[0].resident == {} && |t| <= |c.p.insts| + 1
  {
  }

  lemma DeviceIs(c: Config, i: nat, s: State, victims: seq<Id>)
    requires i < |c.p.insts|
    ensures AtDispatch(c, i, s, victims) == s.resident - SetOf(victims) + WorkingSet(c.p.insts[i])
  {
  }

  // ----- the order of eviction -----

  /** The planner's preference, between two residents of a run, is the policy's order. */
  lemma {:induction false} BeforeIsOrder(c: Config, t: seq<State>, i: nat, a: Id, b: Id)
    requires Valid(c.p) && IsRun(c, t) && i < |t| && i < |c.p.insts| && a != b
    requires a in t[i].resident && b in t[i].resident
    ensures Before(c, i, t[i].lastTouch, a, b) <==> GivenUpBefore(c.policy, c.p, i, a, b)
  {
    TouchIsLastUse(c, t, i, a);
    TouchIsLastUse(c, t, i, b);
    ResidentsWereUsed(c, t, i, a);
    ResidentsWereUsed(c, t, i, b);
    hide IsRun; hide LastUse; hide NextUse; hide Valid;
  }

  /** The eviction loop lists its victims in the order of its preference. */
  lemma {:induction false} EvictionsInOrder(
      c: Config, i: nat, lastTouch: map<Id, int>, resident: set<Id>, incoming: nat, k: nat, l: nat)
    requires i < |c.p.insts| && Evictions(c, i, lastTouch, resident, incoming).Some?
    requires k < l < |Evictions(c, i, lastTouch, resident, incoming).value|
    ensures var victims := Evictions(c, i, lastTouch, resident, incoming).value;
      Before(c, i, lastTouch, victims[k], victims[l])
    decreases |resident|
  {
    hide SumCost; hide WorkingSet; hide Before;
    var candidates := resident - WorkingSet(c.p.insts[i]);
    var v := Victim(c, i, lastTouch, candidates);
    var rest := Evictions(c, i, lastTouch, resident - {v}, incoming).value;
    if k == 0 {
      EvictionsAreResidents(c, i, lastTouch, resident - {v}, incoming);
      assert rest[l - 1] in SetOf(rest);
      assert rest[l - 1] in candidates;
    } else {
      EvictionsInOrder(c, i, lastTouch, resident - {v}, incoming, k - 1, l - 1);
    }
  }

  /** A run evicts in the policy's order: each victim is given up before the victims listed after it, and before
      every resident left behind that the instruction does not use. */
  lemma {:induction false} EvictsInOrder(c: Config, t: seq<State>, i: nat, k: nat, x: Id)
    requires Valid(c.p) && IsRun(c, t) && i < |t| - 1
    ensures i < |c.p.insts| && |t[i + 1].actions| == i + 1
    ensures var evict := t[i + 1].actions[i].evict;
      k < |evict| && x in t[i].resident - WorkingSet(c.p.insts[i]) && (x !in evict || x in evict[k + 1..]) ==>
        GivenUpBefore(c.policy, c.p, i, evict[k], x)
  {
    hide *;
    var victims := EvictedAt(c, t, i);
    RoomIsMade(c, i, t[i]);
    if k < |victims| && x in t[i].resident - WorkingSet(c.p.insts[i]) && (x !in victims || x in victims[k + 1..]) {
      NotTwice(victims, k);
      assert victims[k] in victims;
      InSet(victims, victims[k]);
      RoomIsEvictions(c, i, t[i]);
      if x in victims {
        var l: nat :| k < l < |victims| && victims[l] == x;
        EvictionsInOrder(c, i, t[i].lastTouch, t[i].resident, Incoming(c, i, t[i].resident), k, l);
      } else {
        EvictionsPrefer(c, i, t[i].lastTouch, t[i].resident, Incoming(c, i, t[i].resident), victims[k], x);
      }
      BeforeIsOrder(c, t, i, victims[k], x);
    }
  }

  /** The evict list of an instruction of a run. */
  lemma {:induction false} EvictedAt(c: Config, t: seq<State>, i: nat) returns (victims: seq<Id>)
    requires Valid(c.p) && IsRun(c, t) && i < |t| - 1
    ensures i < |c.p.insts| && |t[i + 1].actions| == i + 1 && victims == t[i + 1].actions[i].evict
    ensures MakeRoom(c, i, t[i]) == Some(victims)
  {
    hide IsRun; hide Valid; hide MakeRoom; hide Dead; hide Sorted; hide AtDispatch; hide Missing; hide SumCost;
    RunLink(c, t, i);
    ActionsGrow(c, t, i, i);
    victims := t[i + 1].actions[i].evict;
  }

  lemma RoomIsEvictions(c: Config, i: nat, s: State)
    requires i < |c.p.insts| && MakeRoom(c, i, s).Some? && MakeRoom(c, i, s).value != []
    ensures c.budget > 0
    ensures Evictions(c, i, s.lastTouch, s.resident, Incoming(c, i, s.resident)) == MakeRoom(c, i, s)
  {
    hide Evictions; hide Incoming; hide SumCost;
  }

  lemma NotTwice(s: seq<Id>, k: nat)
    requires NoDup(s) && k < |s|
    ensures s[k] !in s[k + 1..]
  {
  }

  lemma InSet(s: seq<Id>, x: Id)
    ensures x in s <==> x in SetOf(s)
  {
  }

  // ----- more room never hurts -----

  /** The ids used before `i` and not released: what a device with room for everything would hold. */
  ghost function Pool(c: Config, i: nat): set<Id>
    requires i <= |c.p.insts|
  {
    if i == 0 then {} else Pool(c, i - 1) + WorkingSet(c.p.insts[i - 1]) - Dead(c, i - 1)
  }

  /** `held` is the most recently used part of `pool`. */
  ghost predicate MostRecent(p: Program, i: nat, pool: set<Id>, held: set<Id>)
    requires i <= |p.insts|
  {
    held <= pool && forall x, y :: x in held && y in pool - held ==> LessRecent(p, i, y, x)
  }

  lemma NotBothLessRecent(p: Program, i: nat, x: Id, y: Id)
    requires i <= |p.insts|
    ensures !(LessRecent(p, i, x, y) && LessRecent(p, i, y, x))
  {
    hide LastUse;
  }

  /** Of two such parts the smaller is contained in the larger. */
  lemma {:induction false} MostRecentNested(p: Program, i: nat, pool: set<Id>, a: set<Id>, b: set<Id>)
    requires i <= |p.insts| && MostRecent(p, i, pool, a) && MostRecent(p, i, pool, b) && |a| <= |b|
    ensures a <= b
  {
    hide LastUse;
    if !(a <= b) {
      var x :| x in a && x !in b;
      if b <= a {
        SubsetCardinality(b, a - {x});
      } else {
        var y :| y in b && y !in a;
        NotBothLessRecent(p, i, x, y);
      }
    }
  }

  lemma {:induction false} UsedNow(p: Program, i: nat, x: Id, y: Id)
    requires i < |p.insts| && y !in WorkingSet(p.insts[i])
    ensures x in WorkingSet(p.insts[i]) ==> LessRecent(p, i + 1, y, x)
    ensures x !in WorkingSet(p.insts[i]) && LessRecent(p, i, y, x) ==> LessRecent(p, i + 1, y, x)
  {
    hide WorkingSet;
    LastUseIsLast(p, y, i);
    LastUseStep(p, y, i + 1);
    LastUseStep(p, x, i + 1);
    hide LastUse;
  }

  lemma {:induction false} LruDispatch(c: Config, t: seq<State>, i: nat)
    requires c.policy == Lru && Valid(c.p) && IsRun(c, t) && i < |t| - 1
    requires i < |c.p.insts| && MostRecent(c.p, i, Pool(c, i), t[i].resident)
    ensures MostRecent(c.p, i + 1, Pool(c, i) + WorkingSet(c.p.insts[i]), Device(c, t, i))
  {
    hide *;
    var w := WorkingSet(c.p.insts[i]);
    RunEffect(c, t, i);
    var victims := EvictedAt(c, t, i);
    RoomIsMade(c, i, t[i]);
    DeviceIs(c, i, t[i], victims);
    MostRecentMeans(c.p, i, Pool(c, i), t[i].resident);
    var pool, device := Pool(c, i) + w, Device(c, t, i);
    forall x, y | x in device && y in pool - device ensures LessRecent(c.p, i + 1, y, x) {
      InSet(victims, y);
      InSet(victims, x);
      if x !in w && y in victims {
        var k: nat :| k < |victims| && victims[k] == y;
        EvictsInOrder(c, t, i, k, x);
        LruOrder(c.p, i, y, x);
      }
      UsedNow(c.p, i, x, y);
    }
    MostRecentMeans(c.p, i + 1, pool, device);
  }

  lemma LruOrder(p: Program, i: nat, a: Id, b: Id)
    requires i <= |p.insts|
    ensures GivenUpBefore(Lru, p, i, a, b) <==> LessRecent(p, i, a, b)
  {
    hide LessRecent;
  }

  lemma MostRecentMeans(p: Program, i: nat, pool: set<Id>, held: set<Id>)
    requires i <= |p.insts|
    ensures MostRecent(p, i, pool, held) <==>
      (held <= pool && forall x, y :: x in held && y in pool - held ==> LessRecent(p, i, y, x))
  {
    hide LessRecent;
  }

  /** Under Lru the residents are the most recently used part of what was used and not released. */
  lemma {:induction false} LruHoldsMostRecent(c: Config, t: seq<State>, i: nat)
    requires c.policy == Lru && Valid(c.p) && IsRun(c, t) && i < |t|
    ensures i <= |c.p.insts| && MostRecent(c.p, i, Pool(c, i), t[i].resident)
  {
    hide *;
    RunBegins(c, t);
    PoolIs(c, i);
    if i == 0 {
      MostRecentMeans(c.p, 0, {}, {});
    } else {
      RunEffect(c, t, i - 1);
      LruHoldsMostRecent(c, t, i - 1);
      LruDispatch(c, t, i - 1);
      var pool, device := Pool(c, i - 1) + WorkingSet(c.p.insts[i - 1]), Device(c, t, i - 1);
      MostRecentMeans(c.p, i, pool, device);
      MostRecentMeans(c.p, i, pool - Dead(c, i - 1), device - Dead(c, i - 1));
    }
  }

  lemma PoolIs(c: Config, i: nat)
    requires i <= |c.p.insts|
    ensures Pool(c, i) ==
      if i == 0 then {} else Pool(c, i - 1) + WorkingSet(c.p.insts[i - 1]) - Dead(c, i - 1)
  {
    hide WorkingSet; hide Dead;
  }

  /** `d` plans the same with at least as much room. */
  ghost predicate MoreRoom(c: Config, d: Config) {
    && d == c.(budget := d.budget)
    && (d.budget == 0 || 0 < c.budget <= d.budget)
  }

  lemma {:induction false} PoolIgnoresBudget(c: Config, d: Config, i: nat)
    requires d == c.(budget := d.budget) && i <= |c.p.insts|
    ensures Pool(c, i) == Pool(d, i) && (i < |c.p.insts| ==> Dead(c, i) == Dead(d, i))
  {
    hide WorkingSet; hide NextUse;
    if i > 0 {
      PoolIgnoresBudget(c, d, i - 1);
      hide Dead;
    }
  }

  /** With more room the device holds, at the dispatch, everything it holds with less. */
  lemma {:induction false} LruDevicesNested(c: Config, d: Config, t: seq<State>, u: seq<State>, i: nat)
    requires c.policy == Lru && c.units == Slots && Valid(c.p) && MoreRoom(c, d)
    requires IsRun(c, t) && IsRun(d, u) && i < |t| - 1 && i < |u| - 1 && t[i].resident <= u[i].resident
    ensures Device(c, t, i) <= Device(d, u, i)
  {
    hide *;
    MoreRoomMeans(c, d);
    RunEffect(c, t, i);
    RunEffect(d, u, i);
    var few := EvictedAt(d, u, i);
    var more := EvictedAt(c, t, i);
    DeviceIs(d, i, u[i], few);
    DeviceIs(c, i, t[i], more);
    if few == [] {
      SetOfNothing();
    } else {
      RoomIsEvictions(d, i, u[i]);
      EvictionFillsDevice(d, i, u[i]);
      EveryDispatchIsResident(c, t, i);
      SumSlots(Device(c, t, i));
      LruHoldsMostRecent(c, t, i);
      LruHoldsMostRecent(d, u, i);
      LruDispatch(c, t, i);
      LruDispatch(d, u, i);
      PoolIgnoresBudget(c, d, i);
      MostRecentNested(c.p, i + 1, Pool(c, i) + WorkingSet(c.p.insts[i]), Device(c, t, i), Device(d, u, i));
    }
  }

  lemma MoreRoomMeans(c: Config, d: Config)
    requires MoreRoom(c, d)
    ensures d.p == c.p && d.policy == c.policy && d.units == c.units && d.pinned == c.pinned
    ensures d == c.(budget := d.budget)
    ensures d.budget > 0 ==> 0 < c.budget <= d.budget
  {
  }

  /** Under Lru more room holds more and loads less, at every point of the run. */
  lemma {:induction false} LruRunsNested(c: Config, d: Config, t: seq<State>, u: seq<State>, i: nat)
    requires c.policy == Lru && c.units == Slots && Valid(c.p) && MoreRoom(c, d)
    requires IsRun(c, t) && IsRun(d, u) && i < |t| && i < |u|
    ensures t[i].resident <= u[i].resident && u[i].stats.prefetches <= t[i].stats.prefetches
  {
    hide *;
    RunStart(c, t);
    RunStart(d, u);
    if i > 0 {
      MoreRoomMeans(c, d);
      LruRunsNested(c, d, t, u, i - 1);
      LruDevicesNested(c, d, t, u, i - 1);
      RunEffect(c, t, i - 1);
      RunEffect(d, u, i - 1);
      PoolIgnoresBudget(c, d, i - 1);
      DispatchIs(c, i - 1, t[i - 1], MakeRoom(c, i - 1, t[i - 1]).value);
      DispatchIs(d, i - 1, u[i - 1], MakeRoom(d, i - 1, u[i - 1]).value);
      FewerMissing(c, d, i - 1, t[i - 1].resident, u[i - 1].resident);
    }
  }

  lemma FewerMissing(c: Config, d: Config, i: nat, few: set<Id>, more: set<Id>)
    requires c.p == d.p && i < |c.p.insts| && few <= more
    ensures |Missing(d, i, more)| <= |Missing(c, i, few)|
  {
    SubsetCardinality(Missing(d, i, more), Missing(c, i, few));
  }

  lemma {:induction false} FreesIgnoreBudget(c: Config, d: Config, i: nat)
    requires d == c.(budget := d.budget) && i <= |c.p.insts|
    ensures FreesBefore(c, i) == FreesBefore(d, i)
  {
    hide *;
    if i == 0 {
      NothingFreed(c);
      NothingFreed(d);
    } else {
      FreesIgnoreBudget(c, d, i - 1);
      FreedNext(c, i - 1);
      FreedNext(d, i - 1);
      PoolIgnoresBudget(c, d, i - 1);
    }
  }

  lemma NothingFreed(c: Config)
    ensures FreesBefore(c, 0) == 0
  {
  }

  lemma FreedNext(c: Config, i: nat)
    requires i < |c.p.insts|
    ensures FreesBefore(c, i + 1) == FreesBefore(c, i) + |Dead(c, i)|
  {
    hide Dead;
  }

  lemma {:induction false} LruMoreRoom(c: Config, d: Config)
    requires c.policy == Lru && c.units == Slots && Valid(c.p) && MoreRoom(c, d)
    requires PlanOf(c).Some? && PlanOf(d).Some?
    ensures PlanOf(d).value.stats.prefetches <= PlanOf(c).value.stats.prefetches
    ensures PlanOf(d).value.stats.evicts <= PlanOf(c).value.stats.evicts
  {
    var n := |c.p.insts|;
    MoreRoomMeans(c, d);
    TraceIsRun(c, n);
    TraceIsRun(d, n);
    var t, u := Trace(c, n), Trace(d, n);
    hide IsRun; hide Valid; hide Trace; hide FreesBefore; hide MoreRoom;
    LruRunsNested(c, d, t, u, n);
    ResidentsConserved(c, t, n);
    ResidentsConserved(d, u, n);
    FreesIgnoreBudget(c, d, n);
    SubsetCardinality(t[n].resident, u[n].resident);
  }

  lemma {:induction false} BeladyMoreRoom(c: Config, d: Config)
    requires c.policy == Belady && c.units == Slots && Valid(c.p) && MoreRoom(c, d)
    requires PlanOf(c).Some? && PlanOf(d).Some?
    ensures PlanOf(d).value.stats.prefetches <= PlanOf(c).value.stats.prefetches
    ensures PlanOf(d).value.stats.evicts <= PlanOf(c).value.stats.evicts
  {
    hide *;
    MoreRoomMeans(c, d);
    var r := PlanIsSchedule(c);
    ScheduleSize(c, r);
    RoomierSchedule(c, d, r);
    BeladyIsOptimal(d, r);
    LoadsIgnorePolicy(c, d, r, |r|);
    PinsDropMore(d, c, r, |r|);
  }

  lemma RoomierSchedule(c: Config, d: Config, r: seq<set<Id>>)
    requires IsSchedule(c, r) && MoreRoom(c, d)
    ensures IsSchedule(d, r)
  {
    hide WorkingSet; hide SumCost;
  }

  /** More slots never cost a transfer: under either policy, a plan with more room exists when one with less does,
      and neither prefetches nor evicts more. */
  lemma {:induction false} MoreRoomNeverHurts(c: Config, d: Config)
    requires Valid(c.p) && c.units == Slots && MoreRoom(c, d) && PlanOf(c).Some?
    ensures PlanOf(d).Some?
    ensures PlanOf(d).value.stats.prefetches <= PlanOf(c).value.stats.prefetches
    ensures PlanOf(d).value.stats.evicts <= PlanOf(c).value.stats.evicts
  {
    hide *;
    MoreRoomMeans(c, d);
    PlanExistsIff(c);
    PlanExistsIff(d);
    RoomierFits(c, d);
    if c.policy == Lru {
      LruMoreRoom(c, d);
    } else {
      BeladyMoreRoom(c, d);
    }
  }

  lemma RoomierFits(c: Config, d: Config)
    requires Fits(c) && MoreRoom(c, d)
    ensures Fits(d)
  {
    hide WorkingSet; hide SumCost;
  }
}
