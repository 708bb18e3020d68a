/** How plans depend on the budget: the high-water mark, the least feasible budget, flat byte models. */
module Budgets {
  import opened Fhn
  import opened Sets
  import opened MovementPlan
  import opened Residency

  /** The peak device occupancy a plan reports, in the unit its budget is counted in. */
  function Peak(u: Units, stats: Stats): nat {
    if u.Slots? then stats.highWater else stats.highWaterBytes
  }

  lemma {:induction false} PeakCoversDevice(c: Config, i: nat, s: State, victims: seq<Id>)
    requires i < |c.p.insts|
    ensures var before, after := Peak(c.units, s.stats), Peak(c.units, StatsAfter(c, i, s, victims));
      var device := SumCost(c.units, AtDispatch(c, i, s, victims));
      after >= before && after >= device && (after == before || after == device)
  {
    hide AtDispatch; hide Missing; hide SumCost;
    if c.units.Slots? {
      SumSlots(AtDispatch(c, i, s, victims));
    }
  }

  /** The peak of a run bounds every one of its device states. */
  lemma {:induction false} PeakGrows(c: Config, t: seq<State>, i: nat, j: nat)
    requires Valid(c.p) && IsRun(c, t) && i <= j < |t|
    ensures Peak(c.units, t[i].stats) <= Peak(c.units, t[j].stats)
    ensures i < j ==> SumCost(c.units, Device(c, t, i)) <= Peak(c.units, t[j].stats)
    decreases j - i
  {
    hide *;
    if i < j {
      PeakGrows(c, t, i + 1, j);
      RunEffect(c, t, i);
      PeakCoversDevice(c, i, t[i], MakeRoom(c, i, t[i]).value);
    }
  }

  lemma HighWaterStep(c: Config, i: nat, s: State, victims: seq<Id>)
    requires i < |c.p.insts|
    ensures StatsAfter(c, i, s, victims).highWater == Max(s.stats.highWater, |AtDispatch(c, i, s, victims)|)
    ensures StatsAfter(c, i, s, victims).highWaterBytes ==
      if c.units.Slots? then s.stats.highWaterBytes
      else Max(s.stats.highWaterBytes, SumCost(c.units, AtDispatch(c, i, s, victims)))
  {
    hide AtDispatch; hide SumCost; hide Missing;
  }

  function AtLevel(levelOf: map<Id, nat>, s: set<Id>, l: nat): set<Id> {
    set x | x in s && x in levelOf && levelOf[x] == l
  }

  function LevelBytes(bytes: seq<nat>, levelOf: map<Id, nat>, s: set<Id>, n: nat): nat
    requires n <= |bytes|
  {
    if n == 0 then 0 else LevelBytes(bytes, levelOf, s, n - 1) + |AtLevel(levelOf, s, n - 1)| * bytes[n - 1]
  }

  /** Bytes are counted level by level: each buffer at a level costs what that level's buffers cost. */
  lemma {:induction false} BytesByLevel(bytes: seq<nat>, levelOf: map<Id, nat>, s: set<Id>)
    ensures SumCost(Bytes(bytes, levelOf), s) == LevelBytes(bytes, levelOf, s, |bytes|)
  {
    hide LevelBytes; hide AtLevel;
    if s == {} {
      NoLevelBytes(bytes, levelOf, |bytes|);
    } else {
      BytesByLevel(bytes, levelOf, s - {Min(s)});
      OneMoreAtLevel(bytes, levelOf, s, Min(s), |bytes|);
    }
  }

  lemma {:induction false} NoLevelBytes(bytes: seq<nat>, levelOf: map<Id, nat>, n: nat)
    requires n <= |bytes|
    ensures LevelBytes(bytes, levelOf, {}, n) == 0
  {
    if n > 0 {
      NoLevelBytes(bytes, levelOf, n - 1);
      assert AtLevel(levelOf, {}, n - 1) == {};
    }
  }

  lemma {:induction false} OneMoreAtLevel(bytes: seq<nat>, levelOf: map<Id, nat>, s: set<Id>, x: Id, n: nat)
    requires n <= |bytes| && x in s
    ensures LevelBytes(bytes, levelOf, s, n) == LevelBytes(bytes, levelOf, s - {x}, n) +
      if x in levelOf && levelOf[x] < n then bytes[levelOf[x]] else 0
  {
    hide AtLevel;
    if n > 0 {
      OneMoreAtLevel(bytes, levelOf, s, x, n - 1);
      AtLevelWith(levelOf, s, x, n - 1);
      CountOne(|AtLevel(levelOf, s - {x}, n - 1)|, bytes[n - 1]);
    }
  }

  lemma AtLevelWith(levelOf: map<Id, nat>, s: set<Id>, x: Id, l: nat)
    requires x in s
    ensures |AtLevel(levelOf, s, l)| ==
      |AtLevel(levelOf, s - {x}, l)| + if x in levelOf && levelOf[x] == l then 1 else 0
  {
    var here, rest := AtLevel(levelOf, s, l), AtLevel(levelOf, s - {x}, l);
    assert here == if x in levelOf && levelOf[x] == l then rest + {x} else rest;
  }

  lemma CountOne(count: nat, size: nat)
    ensures (count + 1) * size == count * size + size
  {
  }

  /** The high-water marks are the most buffers, and in byte mode the most bytes, on the device at any dispatch: no
      dispatch has more, and some dispatch has as many. */
  lemma {:induction false} HighWaterIsMost(c: Config, t: seq<State>, i: nat, k: nat) returns (most: nat, heaviest: nat)
    requires Valid(c.p) && IsRun(c, t) && i < |t|
    ensures k < i ==> |Device(c, t, k)| <= t[i].stats.highWater
    ensures i > 0 ==> most < i && |Device(c, t, most)| == t[i].stats.highWater
    ensures i == 0 ==> t[i].stats.highWater == 0
    ensures k < i && c.units.Bytes? ==> SumCost(c.units, Device(c, t, k)) <= t[i].stats.highWaterBytes
    ensures c.units.Bytes? && t[i].stats.highWaterBytes > 0 ==>
      heaviest < i && SumCost(c.units, Device(c, t, heaviest)) == t[i].stats.highWaterBytes
    ensures c.units.Slots? ==> t[i].stats.highWaterBytes == 0
    decreases i
  {
    hide *;
    most, heaviest := 0, 0;
    StartStats(c, t);
    if i > 0 {
      var earlier, heavy := HighWaterIsMost(c, t, i - 1, k);
      RunEffect(c, t, i - 1);
      HighWaterStep(c, i - 1, t[i - 1], MakeRoom(c, i - 1, t[i - 1]).value);
      MaxIs(t[i - 1].stats.highWater, |Device(c, t, i - 1)|);
      MaxIs(t[i - 1].stats.highWaterBytes, SumCost(c.units, Device(c, t, i - 1)));
      most := if i > 1 && t[i].stats.highWater == t[i - 1].stats.highWater then earlier else i - 1;
      heaviest := if t[i].stats.highWaterBytes == t[i - 1].stats.highWaterBytes then heavy else i - 1;
    }
  }

  lemma MaxIs(a: int, b: int)
    ensures Max(a, b) == if a >= b then a else b
  {
  }

  lemma StartStats(c: Config, t: seq<State>)
    requires IsRun(c, t)
    ensures t[0].stats == Stats(0, 0, 0, 0, 0)
  {
  }

  /** A budgeted run never peaks above its budget. */
  lemma {:induction false} PeakWithinBudget(c: Config, t: seq<State>, i: nat)
    requires Valid(c.p) && IsRun(c, t) && i < |t| && c.budget > 0
    ensures Peak(c.units, t[i].stats) <= c.budget
  {
    hide Step; hide Device; hide Linked; hide Valid; hide StatsAfter; hide AtDispatch; hide SumCost; hide MakeRoom;
    if i > 0 {
      PeakWithinBudget(c, t, i - 1);
      RunEffect(c, t, i - 1);
      EveryDispatchIsResident(c, t, i - 1);
      hide Moves; hide IsRun;
      PeakCoversDevice(c, i - 1, t[i - 1], MakeRoom(c, i - 1, t[i - 1]).value);
    }
  }

  /** Where the incoming units fit without evicting, no room has to be made. */
  lemma {:induction false} AmpleRoom(c: Config, i: nat, s: State)
    requires Valid(c.p) && i < |c.p.insts| && s.resident <= DefinedBefore(c.p, i)
    requires c.budget > 0 ==> SumCost(c.units, AtDispatch(c, i, s, [])) <= c.budget
    ensures MakeRoom(c, i, s) == Some([])
  {
    if c.budget > 0 {
      DispatchCost(c, i, s, []);
      assert s.resident - SetOf<Id>([]) == s.resident;
      assert WorkingSet(c.p.insts[i]) <= AtDispatch(c, i, s, []);
      SumSplit(c.units, WorkingSet(c.p.insts[i]), AtDispatch(c, i, s, []));
      hide SumCost; hide AtDispatch; hide Incoming;
    }
  }

  lemma {:induction false} SameRoomSameStep(c: Config, d: Config, i: nat, s: State)
    requires i < |c.p.insts| && d == c.(budget := d.budget, policy := d.policy)
    requires MakeRoom(c, i, s) == MakeRoom(d, i, s)
    ensures Step(d, i, s) == Step(c, i, s)
  {
    hide MakeRoom; hide SumCost; hide NextUse;
    assert Dead(d, i) == Dead(c, i);
    hide Dead;
  }

  lemma {:induction false} UnlimitedDevice(c: Config, t: seq<State>, i: nat)
    requires c.budget == 0 && Valid(c.p) && IsRun(c, t) && i < |t| - 1
    ensures MakeRoom(c, i, t[i]) == Some([]) && Device(c, t, i) == AtDispatch(c, i, t[i], [])
  {
    hide AtDispatch; hide Step;
    RunEffect(c, t, i);
  }

  /** A run of the unlimited planner is a run under any budget its peak stays within. */
  lemma {:induction false} AmpleRun(c: Config, d: Config, t: seq<State>, i: nat)
    requires Valid(c.p) && IsRun(c, t) && i < |t|
    requires c.budget == 0 && d == c.(budget := d.budget, policy := d.policy)
    requires d.budget > 0 ==> Peak(c.units, t[|t| - 1].stats) <= d.budget
    ensures Run(d, i) == Some(t[i])
  {
    hide Step; hide Device; hide Linked; hide Valid; hide AtDispatch; hide SumCost; hide MakeRoom; hide Peak;
    if i > 0 {
      AmpleRun(c, d, t, i - 1);
      RunEffect(c, t, i - 1);
      UnlimitedDevice(c, t, i - 1);
      PeakGrows(c, t, i - 1, |t| - 1);
      hide IsRun;
      assert AtDispatch(d, i - 1, t[i - 1], []) == AtDispatch(c, i - 1, t[i - 1], []) by {
        DispatchIgnoresBudget(c, d, i - 1, t[i - 1]);
      }
      AmpleRoom(d, i - 1, t[i - 1]);
      SameRoomSameStep(c, d, i - 1, t[i - 1]);
    }
  }

  lemma DispatchIgnoresBudget(c: Config, d: Config, i: nat, s: State)
    requires i < |c.p.insts| && c.p == d.p
    ensures AtDispatch(c, i, s, []) == AtDispatch(d, i, s, [])
  {
  }

  lemma {:induction false} EpilogueIgnoresBudget(c: Config, d: Config, k: nat)
    requires c.p == d.p && c.pinned == d.pinned && k <= |c.p.inputs|
    ensures UnusedInputs(c, k) == UnusedInputs(d, k)
  {
    if k > 0 {
      EpilogueIgnoresBudget(c, d, k - 1);
    }
  }

  lemma {:induction false} UnlimitedEvictsNothing(c: Config, t: seq<State>, i: nat)
    requires c.budget == 0 && Valid(c.p) && IsRun(c, t) && i < |t|
    ensures t[i].stats.evicts == 0
  {
    hide Step; hide Device; hide Linked; hide Valid; hide AtDispatch; hide SumCost; hide MakeRoom; hide Missing;
    if i > 0 {
      UnlimitedEvictsNothing(c, t, i - 1);
      RunEffect(c, t, i - 1);
      UnlimitedDevice(c, t, i - 1);
    }
  }

  lemma PlanStats(c: Config)
    requires PlanOf(c).Some?
    ensures Run(c, |c.p.insts|).Some? && PlanOf(c).value.stats == Run(c, |c.p.insts|).value.stats
  {
    hide Run;
  }

  lemma {:induction false} SameRunSamePlan(c: Config, d: Config)
    requires c.p == d.p && c.pinned == d.pinned
    requires Run(c, |c.p.insts|) == Run(d, |c.p.insts|)
    ensures PlanOf(c) == PlanOf(d)
  {
    EpilogueIgnoresBudget(c, d, |c.p.inputs|);
    hide Run; hide UnusedInputs;
  }

  /** A budget changes nothing exactly when it reaches the unlimited plan's high-water mark, in slots or
      in bytes, under either policy; and the unlimited plan evicts nothing. */
  lemma {:induction false} HighWaterBudget(unlimited: Config, budget: nat, policy: Policy)
    requires Valid(unlimited.p) && unlimited.budget == 0 && budget > 0
    ensures PlanOf(unlimited).Some? && PlanOf(unlimited).value.stats.evicts == 0
    ensures PlanOf(unlimited.(budget := budget, policy := policy)) == PlanOf(unlimited)
      <==> Peak(unlimited.units, PlanOf(unlimited).value.stats) <= budget
  {
    hide Run; hide PlanOf; hide Peak; hide IsRun;
    var n := |unlimited.p.insts|;
    var limited := unlimited.(budget := budget, policy := policy);
    PlanExistsIff(unlimited);
    PlanStats(unlimited);
    TraceIsRun(unlimited, n);
    var t := Trace(unlimited, n);
    UnlimitedEvictsNothing(unlimited, t, n);
    if Peak(unlimited.units, t[n].stats) <= budget {
      AmpleRun(unlimited, limited, t, n);
      SameRunSamePlan(unlimited, limited);
    }
    if PlanOf(limited) == PlanOf(unlimited) {
      PlanStats(limited);
      TraceIsRun(limited, n);
      PeakWithinBudget(limited, Trace(limited, n), n);
    }
  }

  // ----- the least feasible slot budget -----

  function MaxWorkingSet(p: Program, i: nat): nat
    requires i <= |p.insts|
  {
    if i == 0 then 0 else Max(MaxWorkingSet(p, i - 1), |WorkingSet(p.insts[i - 1])|)
  }

  lemma {:induction false} MaxWorkingSetBounds(p: Program, i: nat, budget: nat)
    requires i <= |p.insts|
    ensures MaxWorkingSet(p, i) <= budget <==> forall k :: 0 <= k < i ==> |WorkingSet(p.insts[k])| <= budget
  {
    hide WorkingSet;
    if i > 0 {
      MaxWorkingSetBounds(p, i - 1, budget);
      assert (forall k :: 0 <= k < i ==> |WorkingSet(p.insts[k])| <= budget) <==>
        (forall k :: 0 <= k < i - 1 ==> |WorkingSet(p.insts[k])| <= budget) && |WorkingSet(p.insts[i - 1])| <= budget;
    }
  }

  /** The distinct ids each instruction touches, and their largest number. */
  method FindMaxWorkingSet(p: Program) returns (max: nat)
    ensures max == MaxWorkingSet(p, |p.insts|)
  {
    max := 0;
    for i := 0 to |p.insts|
      invariant max == MaxWorkingSet(p, i)
    {
      var size := |WorkingSet(p.insts[i])|;
      if size > max {
        max := size;
      }
    }
  }

  /** MaxWorkingSet is the least feasible slot budget of a valid program that has instructions. */
  lemma {:induction false} LeastFeasibleBudget(c: Config)
    requires Valid(c.p) && c.units == Slots && c.budget > 0
    ensures PlanOf(c).Some? <==> MaxWorkingSet(c.p, |c.p.insts|) <= c.budget
  {
    PlanExistsIff(c);
    MaxWorkingSetBounds(c.p, |c.p.insts|, c.budget);
    hide PlanOf; hide SumCost; hide WorkingSet;
    forall k | 0 <= k < |c.p.insts|
      ensures SumCost(c.units, WorkingSet(c.p.insts[k])) == |WorkingSet(c.p.insts[k])|
    {
      SumSlots(WorkingSet(c.p.insts[k]));
    }
  }

  // ----- flat byte models -----

  /** Every id of the program has a level, and every level the same size. */
  ghost predicate Flat(u: Units, p: Program, size: nat) {
    && size > 0 && u.Bytes?
    && forall x :: x in Defs(p) ==> Cost(u, x) == size
  }

  lemma OneMore(size: nat, s: set<Id>, x: Id)
    requires x in s
    ensures size * |s| == size + size * |s - {x}|
  {
    assert |s| == |s - {x}| + 1;
  }

  lemma {:induction false} FlatSum(u: Units, p: Program, size: nat, s: set<Id>)
    requires Flat(u, p, size) && s <= Defs(p)
    ensures SumCost(u, s) == size * |s|
    decreases |s|
  {
    hide Defs;
    if s != {} {
      var m := Min(s);
      FlatSum(u, p, size, s - {m});
      OneMore(size, s, m);
      hide Min;
    }
  }

  /** `budget` bytes hold exactly `slots` buffers. */
  ghost predicate Holds(size: nat, slots: nat, budget: nat) {
    (slots == 0 && budget == 0) || (slots > 0 && size * slots <= budget < size * (slots + 1))
  }

  lemma {:induction false} FlatFits(size: nat, slots: nat, budget: nat, k: nat)
    requires size > 0 && Holds(size, slots, budget) && slots > 0
    ensures size * k <= budget <==> k <= slots
  {
    if k <= slots {
      assert size * k <= size * slots;
    } else {
      assert size * k >= size * (slots + 1);
    }
  }

  lemma Distribute(size: nat, a: nat, b: nat)
    ensures size * (a + b) == size * a + size * b
    ensures a <= b ==> size * a <= size * b
  {
  }

  ghost predicate FlatPair(c: Config, d: Config, size: nat) {
    && Valid(c.p) && c.units == Slots && Flat(d.units, c.p, size) && Holds(size, c.budget, d.budget)
    && d == c.(units := d.units, budget := d.budget)
  }

  lemma VictimUnique(c: Config, d: Config, i: nat, lastTouch: map<Id, int>, candidates: set<Id>)
    requires c.p == d.p && c.policy == d.policy && candidates != {}
    ensures Victim(c, i, lastTouch, candidates) == Victim(d, i, lastTouch, candidates)
  {
    hide NextUse;
    var v, w := Victim(c, i, lastTouch, candidates), Victim(d, i, lastTouch, candidates);
    assert Before(c, i, lastTouch, v, w) && Before(d, i, lastTouch, w, v);
  }

  lemma {:induction false} FlatEvictions(
      c: Config, d: Config, size: nat, i: nat, lastTouch: map<Id, int>, resident: set<Id>, incoming: nat)
    requires FlatPair(c, d, size) && c.budget > 0 && i < |c.p.insts| && resident <= Defs(c.p)
    ensures Evictions(d, i, lastTouch, resident, size * incoming) == Evictions(c, i, lastTouch, resident, incoming)
    decreases |resident|
  {
    hide *;
    FlatPairMeans(c, d, size);
    SumSlots(resident);
    FlatSum(d.units, c.p, size, resident);
    Distribute(size, |resident|, incoming);
    FlatFits(size, c.budget, d.budget, |resident| + incoming);
    EvictionsUnfold(c, i, lastTouch, resident, incoming);
    EvictionsUnfold(d, i, lastTouch, resident, size * incoming);
    var candidates := resident - WorkingSet(c.p.insts[i]);
    if |resident| + incoming > c.budget && candidates != {} {
      VictimUnique(c, d, i, lastTouch, candidates);
      var v := Victim(c, i, lastTouch, candidates);
      FlatEvictions(c, d, size, i, lastTouch, resident - {v}, incoming);
    }
  }

  lemma FlatPairMeans(c: Config, d: Config, size: nat)
    requires FlatPair(c, d, size)
    ensures c.units == Slots && d.p == c.p && d.policy == c.policy && d.pinned == c.pinned
    ensures size > 0 && Valid(c.p) && Flat(d.units, c.p, size) && Holds(size, c.budget, d.budget)
    ensures c.budget > 0 ==> d.budget > 0
  {
    hide Valid; hide Defs;
  }

  lemma EvictionsUnfold(c: Config, i: nat, lastTouch: map<Id, int>, resident: set<Id>, incoming: nat)
    requires i < |c.p.insts|
    ensures var candidates := resident - WorkingSet(c.p.insts[i]);
      Evictions(c, i, lastTouch, resident, incoming) ==
        if SumCost(c.units, resident) + incoming <= c.budget then Some([])
        else if candidates == {} then None
        else
          match Evictions(c, i, lastTouch, resident - {Victim(c, i, lastTouch, candidates)}, incoming)
          case None => None
          case Some(rest) => Some([Victim(c, i, lastTouch, candidates)] + rest)
    ensures var candidates := resident - WorkingSet(c.p.insts[i]);
      candidates != {} ==> Victim(c, i, lastTouch, candidates) in candidates
  {
    hide SumCost; hide WorkingSet; hide Before;
  }

  /** The byte planner's state that corresponds to a slot planner's state. */
  function Scaled(size: nat, s: State): State {
    s.(stats := ScaledStats(size, s.stats))
  }

  function ScaledStats(size: nat, stats: Stats): Stats {
    stats.(highWaterBytes := size * stats.highWater)
  }

  lemma {:induction false} TouchesDefs(p: Program, i: nat)
    requires Valid(p) && i < |p.insts|
    ensures WorkingSet(p.insts[i]) <= Defs(p)
    ensures DefinedBefore(p, i) <= Defs(p)
  {
    DefinedBeforeGrows(p, i);
    DefinedBeforeMonotone(p, i + 1, |p.insts|);
  }

  lemma {:induction false} FlatMissing(c: Config, d: Config, size: nat, i: nat, resident: set<Id>)
    requires FlatPair(c, d, size) && i < |c.p.insts|
    ensures SumCost(c.units, Missing(c, i, resident)) == |Missing(c, i, resident)|
    ensures SumCost(d.units, Missing(c, i, resident)) == size * |Missing(c, i, resident)|
    ensures Cost(c.units, c.p.insts[i].resultId) == 1 && Cost(d.units, c.p.insts[i].resultId) == size
  {
    TouchesDefs(c.p, i);
    assert c.p.insts[i].resultId in WorkingSet(c.p.insts[i]);
    assert Missing(c, i, resident) <= WorkingSet(c.p.insts[i]);
    hide SumCost; hide WorkingSet; hide OperandIds; hide Defs; hide Valid; hide Holds; hide Missing;
    SumSlots(Missing(c, i, resident));
    FlatSum(d.units, c.p, size, Missing(c, i, resident));
  }

  lemma {:induction false} FlatIncoming(c: Config, d: Config, size: nat, i: nat, resident: set<Id>)
    requires FlatPair(c, d, size) && i < |c.p.insts|
    ensures Incoming(d, i, resident) == size * Incoming(c, i, resident)
  {
    hide SumCost; hide WorkingSet; hide OperandIds; hide Defs; hide Valid; hide Holds; hide Missing; hide Flat;
    hide Cost;
    FlatMissing(c, d, size, i, resident);
    MissingIgnoresUnits(c, d, i, resident);
    Distribute(size, 1, |Missing(c, i, resident)|);
  }

  lemma MissingIgnoresUnits(c: Config, d: Config, i: nat, resident: set<Id>)
    requires c.p == d.p && i < |c.p.insts|
    ensures Missing(c, i, resident) == Missing(d, i, resident)
  {
  }

  lemma {:induction false} FlatRoom(c: Config, d: Config, size: nat, i: nat, s: State)
    requires FlatPair(c, d, size) && i < |c.p.insts| && s.resident <= DefinedBefore(c.p, i)
    ensures MakeRoom(d, i, Scaled(size, s)) == MakeRoom(c, i, s)
  {
    if c.budget > 0 {
      TouchesDefs(c.p, i);
      var w := WorkingSet(c.p.insts[i]);
      SumSlots(w);
      FlatSum(d.units, c.p, size, w);
      FlatFits(size, c.budget, d.budget, |w|);
      FlatIncoming(c, d, size, i, s.resident);
      FlatEvictions(c, d, size, i, s.lastTouch, s.resident, Incoming(c, i, s.resident));
      BudgetsAgree(size, c.budget, d.budget);
      hide SumCost; hide Evictions; hide Incoming; hide WorkingSet; hide DefinedBefore; hide Flat; hide Valid;
    }
  }

  lemma BudgetsAgree(size: nat, slots: nat, budget: nat)
    requires size > 0 && Holds(size, slots, budget)
    ensures slots == 0 <==> budget == 0
  {
  }

  lemma {:induction false} FlatStats(c: Config, d: Config, size: nat, i: nat, s: State, victims: seq<Id>)
    requires FlatPair(c, d, size) && i < |c.p.insts| && s.resident <= DefinedBefore(c.p, i)
    ensures StatsAfter(d, i, Scaled(size, s), victims) == ScaledStats(size, StatsAfter(c, i, s, victims))
  {
    hide SumCost; hide AtDispatch; hide Defs; hide DefinedBefore; hide WorkingSet; hide Valid; hide Missing; hide Holds;
    var device := AtDispatch(c, i, s, victims);
    DispatchDefined(c, i, s, victims);
    FlatSum(d.units, c.p, size, device);
    DispatchOfScaled(c, d, size, i, s, victims);
    MissingIgnoresUnits(c, d, i, s.resident);
    Distribute(size, |device|, s.stats.highWater);
    Distribute(size, s.stats.highWater, |device|);
  }

  lemma DispatchDefined(c: Config, i: nat, s: State, victims: seq<Id>)
    requires Valid(c.p) && i < |c.p.insts| && s.resident <= DefinedBefore(c.p, i)
    ensures AtDispatch(c, i, s, victims) <= Defs(c.p)
  {
    TouchesDefs(c.p, i);
  }

  lemma DispatchOfScaled(c: Config, d: Config, size: nat, i: nat, s: State, victims: seq<Id>)
    requires c.p == d.p && i < |c.p.insts|
    ensures AtDispatch(d, i, Scaled(size, s), victims) == AtDispatch(c, i, s, victims)
  {
  }

  lemma {:induction false} FlatStep(c: Config, d: Config, size: nat, i: nat, s: State)
    requires FlatPair(c, d, size) && i < |c.p.insts| && s.resident <= DefinedBefore(c.p, i)
    ensures Step(c, i, s).None? <==> Step(d, i, Scaled(size, s)).None?
    ensures Step(c, i, s).Some? ==> Step(d, i, Scaled(size, s)) == Some(Scaled(size, Step(c, i, s).value))
  {
    FlatRoom(c, d, size, i, s);
    assert Dead(d, i) == Dead(c, i);
    assert Missing(d, i, Scaled(size, s).resident) == Missing(c, i, s.resident);
    hide Dead; hide MakeRoom; hide WorkingSet; hide Missing;
    if MakeRoom(c, i, s).Some? {
      var victims := MakeRoom(c, i, s).value;
      FlatStats(c, d, size, i, s, victims);
      DispatchOfScaled(c, d, size, i, s, victims);
      hide AtDispatch; hide StatsAfter; hide FlatPair; hide Sorted;
    }
  }

  lemma {:induction false} FlatRun(c: Config, d: Config, size: nat, i: nat)
    requires FlatPair(c, d, size) && i <= |c.p.insts|
    ensures Run(d, i) == (match Run(c, i) case None => None case Some(s) => Some(Scaled(size, s)))
  {
    hide Step; hide Valid;
    if i > 0 {
      FlatRun(c, d, size, i - 1);
      if Run(c, i - 1).Some? {
        TraceIsRun(c, i - 1);
        RunKeepsOk(c, Trace(c, i - 1), i - 1);
        FlatStep(c, d, size, i - 1, Run(c, i - 1).value);
      }
    }
  }

  /** With one size for every level, planning in bytes is planning in slots: same feasibility, same
      actions, same counts, and the byte high-water mark is the slot one times the size. */
  lemma {:induction false} FlatBytesAreSlots(c: Config, d: Config, size: nat)
    requires FlatPair(c, d, size)
    ensures PlanOf(d).Some? <==> PlanOf(c).Some?
    ensures PlanOf(c).Some? ==>
      && PlanOf(d).value.actions == PlanOf(c).value.actions
      && PlanOf(d).value.stats == ScaledStats(size, PlanOf(c).value.stats)
  {
    FlatRun(c, d, size, |c.p.insts|);
    EpilogueIgnoresBudget(c, d, |c.p.inputs|);
    hide Run; hide UnusedInputs; hide FlatPair;
  }
}
