/** In slot mode the Belady plan loads no more, and evicts no more, than any schedule that keeps every working set
    resident. */
module BeladyOptimality {
  import opened Fhn
  import opened Sets
  import opened MovementPlan
  import opened Residency

  /** A schedule names the device contents at every dispatch. It may hold anything, as long as each
      working set is there and the budget is kept. */
  ghost predicate IsSchedule(c: Config, r: seq<set<Id>>) {
    && |r| == |c.p.insts|
    && forall i :: 0 <= i < |r| ==>
         WorkingSet(c.p.insts[i]) <= r[i] && (c.budget > 0 ==> SumCost(c.units, r[i]) <= c.budget)
  }

  function Held(r: seq<set<Id>>, i: nat): set<Id>
    requires i <= |r|
  {
    if i == 0 then {} else r[i - 1]
  }

  /** What a schedule brings to the device for instruction `i`; the result is allocated, not loaded. */
  function Loaded(c: Config, r: seq<set<Id>>, i: nat): set<Id>
    requires |r| == |c.p.insts| && i < |r|
  {
    r[i] - Held(r, i) - {c.p.insts[i].resultId}
  }

  function Loads(c: Config, r: seq<set<Id>>, i: nat): nat
    requires |r| == |c.p.insts| && i <= |r|
  {
    if i == 0 then 0 else Loads(c, r, i - 1) + |Loaded(c, r, i - 1)|
  }

  /** What a schedule gives up for instruction `i`: what it held, was not released and holds no longer. */
  function Dropped(c: Config, r: seq<set<Id>>, i: nat): set<Id>
    requires |r| == |c.p.insts| && i < |r|
  {
    Held(r, i) - Released(c, i) - r[i]
  }

  /** What is released before instruction `i`: what died with the one before it. */
  function Released(c: Config, i: nat): set<Id>
    requires i < |c.p.insts|
  {
    if i == 0 then {} else Dead(c, i - 1)
  }

  function Drops(c: Config, r: seq<set<Id>>, i: nat): nat
    requires |r| == |c.p.insts| && i <= |r|
  {
    if i == 0 then 0 else Drops(c, r, i - 1) + |Dropped(c, r, i - 1)|
  }

  /** Those of `s` that are read at or after `i` but before `horizon`. */
  function Near(p: Program, s: set<Id>, i: nat, horizon: nat): set<Id> {
    set x | x in s && NextUse(p, x, i) < horizon
  }

  /** The exchange argument's invariant: whatever a schedule holds that is needed soon and the plan
      does not, the schedule has paid for. */
  ghost predicate Ahead(c: Config, s: State, held: set<Id>, loads: nat, i: nat, horizon: nat) {
    s.stats.prefetches + |Near(c.p, held, i, horizon)| <= loads + |Near(c.p, s.resident, i, horizon)|
  }

  lemma {:induction false} NearNow(p: Program, s: set<Id>, i: nat)
    requires i < |p.insts|
    ensures Near(p, s, i, i + 1) == s * OperandIds(p.insts[i])
  {
    forall x | x in s ensures NextUse(p, x, i) < i + 1 <==> x in OperandIds(p.insts[i]) {
      NextUseIsFirst(p, x, i);
    }
  }

  lemma {:induction false} NextUseSkips(p: Program, x: Id, i: nat)
    requires i < |p.insts| && x !in OperandIds(p.insts[i])
    ensures NextUse(p, x, i) == NextUse(p, x, i + 1)
  {
  }

  lemma NextUseNow(p: Program, x: Id, i: nat)
    requires i < |p.insts| && x in OperandIds(p.insts[i])
    ensures NextUse(p, x, i) == i
  {
  }

  /** Residents outside the working set, near: unchanged by the instruction. */
  lemma {:induction false} NearOutside(p: Program, s: set<Id>, i: nat, horizon: nat)
    requires i < |p.insts| && i + 1 < horizon
    ensures Near(p, s - WorkingSet(p.insts[i]), i + 1, horizon) + s * OperandIds(p.insts[i])
      <= Near(p, s, i, horizon)
    ensures p.insts[i].resultId !in s ==>
      Near(p, s - WorkingSet(p.insts[i]), i + 1, horizon) + s * OperandIds(p.insts[i]) == Near(p, s, i, horizon)
    ensures Near(p, s - WorkingSet(p.insts[i]), i + 1, horizon) !! s * OperandIds(p.insts[i])
  {
    var ops := OperandIds(p.insts[i]);
    forall x | x in s
      ensures x in ops ==> NextUse(p, x, i) == i
      ensures x !in ops ==> NextUse(p, x, i) == NextUse(p, x, i + 1)
    {
      if x in ops { NextUseNow(p, x, i); } else { NextUseSkips(p, x, i); }
    }
  }

  lemma {:induction false} CardinalityOfParts<T>(whole: set<T>, a: set<T>, b: set<T>)
    requires a !! b
    ensures a + b <= whole ==> |a| + |b| <= |whole|
    ensures whole == a + b ==> |whole| == |a| + |b|
    ensures whole <= a + b ==> |whole| <= |a| + |b|
  {
    assert |a + b| == |a| + |b|;
    if a + b <= whole {
      SubsetCardinality(a + b, whole);
    }
    if whole <= a + b {
      SubsetCardinality(whole, a + b);
    }
  }

  /** What the schedule loads covers its missing operands and everything else it newly holds. */
  lemma {:induction false} LoadsCover(inst: Instruction, before: set<Id>, after: set<Id>)
    requires WorkingSet(inst) <= after && inst.resultId !in OperandIds(inst)
    ensures |OperandIds(inst) - before| + |after - WorkingSet(inst) - before| <= |after - before - {inst.resultId}|
  {
    CardinalityOfParts(after - before - {inst.resultId}, OperandIds(inst) - before, after - WorkingSet(inst) - before);
  }

  /** The plan never loads more than the schedule, whatever either holds. */
  lemma {:induction false} PrefetchesCovered(c: Config, s: State, held: set<Id>, next: set<Id>, loads: nat, i: nat)
    requires i < |c.p.insts| && Valid(c.p) && WorkingSet(c.p.insts[i]) <= next
    requires Ahead(c, s, held, loads, i, i + 1)
    ensures s.stats.prefetches + |Missing(c, i, s.resident)| <= loads + |next - held - {c.p.insts[i].resultId}|
  {
    var ops := OperandIds(c.p.insts[i]);
    NearNow(c.p, held, i);
    NearNow(c.p, s.resident, i);
    LoadsCover(c.p.insts[i], held, next);
    CardinalityOfParts(ops, ops - held, held * ops);
    CardinalityOfParts(ops, ops - s.resident, s.resident * ops);
  }

  lemma {:induction false} OutsideCounts(p: Program, s: set<Id>, i: nat, horizon: nat)
    requires i < |p.insts| && i + 1 < horizon
    ensures var ops, w := OperandIds(p.insts[i]), WorkingSet(p.insts[i]);
      var near, outside := |Near(p, s, i, horizon)|, |Near(p, s - w, i + 1, horizon)|;
      && near + |ops - s| >= outside + |ops|
      && (p.insts[i].resultId !in s ==> near + |ops - s| == outside + |ops|)
  {
    hide *;
    var ops, w := OperandIds(p.insts[i]), WorkingSet(p.insts[i]);
    NearOutside(p, s, i, horizon);
    CardinalityOfParts(Near(p, s, i, horizon), Near(p, s - w, i + 1, horizon), s * ops);
    CardinalityOfParts(ops, ops - s, s * ops);
  }

  /** Before the plan evicts, it is still ahead on everything outside the working set. */
  lemma {:induction false} AheadOutside(
      c: Config, s: State, held: set<Id>, next: set<Id>, loads: nat, i: nat, horizon: nat)
    requires i < |c.p.insts| && Valid(c.p) && WorkingSet(c.p.insts[i]) <= next && i + 1 < horizon
    requires s.resident <= DefinedBefore(c.p, i)
    requires Ahead(c, s, held, loads, i, horizon)
    ensures s.stats.prefetches + |Missing(c, i, s.resident)|
        + |Near(c.p, next - WorkingSet(c.p.insts[i]), i + 1, horizon)|
      <= loads + |next - held - {c.p.insts[i].resultId}|
        + |Near(c.p, s.resident - WorkingSet(c.p.insts[i]), i + 1, horizon)|
  {
    hide *;
    var inst := c.p.insts[i];
    var ops, w := OperandIds(inst), WorkingSet(inst);
    ResultIsFresh(c.p, i, s.resident);
    AheadMeans(c, s, held, loads, i, horizon);
    OutsideCounts(c.p, held, i, horizon);
    OutsideCounts(c.p, s.resident, i, horizon);
    LoadsCover(inst, held, next);
    NearGrowsByLoads(c.p, next - w, held - w, i + 1, horizon);
    assert (next - w) - (held - w) == next - w - held;
  }

  lemma AheadMeans(c: Config, s: State, held: set<Id>, loads: nat, i: nat, horizon: nat)
    requires i < |c.p.insts|
    ensures Ahead(c, s, held, loads, i, horizon) <==>
      s.stats.prefetches + |Near(c.p, held, i, horizon)| <= loads + |Near(c.p, s.resident, i, horizon)|
    ensures Missing(c, i, s.resident) == OperandIds(c.p.insts[i]) - s.resident
    ensures WorkingSet(c.p.insts[i]) == OperandIds(c.p.insts[i]) + {c.p.insts[i].resultId}
  {
    hide Near; hide OperandIds;
  }

  lemma ResultIsFresh(p: Program, i: nat, resident: set<Id>)
    requires i < |p.insts| && Valid(p) && resident <= DefinedBefore(p, i)
    ensures p.insts[i].resultId !in OperandIds(p.insts[i]) && p.insts[i].resultId !in resident
  {
  }

  lemma {:induction false} NearGrowsByLoads(p: Program, next: set<Id>, held: set<Id>, i: nat, horizon: nat)
    ensures |Near(p, next, i, horizon)| <= |Near(p, held, i, horizon)| + |next - held|
  {
    assert Near(p, next, i, horizon) <= Near(p, held, i, horizon) + (next - held);
    CardinalityOfParts(Near(p, next, i, horizon), Near(p, held, i, horizon), next - held);
  }

  // ----- one step -----

  /** Releasing dead ids changes nothing that is still needed. */
  lemma {:induction false} DeadAreNotNear(c: Config, i: nat, device: set<Id>, horizon: nat)
    requires i < |c.p.insts| && horizon <= |c.p.insts|
    ensures Near(c.p, device - Dead(c, i), i + 1, horizon) == Near(c.p, device, i + 1, horizon)
  {
    forall x | x in Dead(c, i) ensures NextUse(c.p, x, i + 1) >= horizon {
      NextUseMonotone(c.p, x, 0, i + 1);
    }
  }

  lemma {:induction false} NearSplits(p: Program, inst: Instruction, s: set<Id>, i: nat, horizon: nat)
    requires WorkingSet(inst) <= s
    ensures |Near(p, s, i, horizon)| ==
      |Near(p, s - WorkingSet(inst), i, horizon)| + |Near(p, WorkingSet(inst), i, horizon)|
  {
    CardinalityOfParts(Near(p, s, i, horizon),
      Near(p, s - WorkingSet(inst), i, horizon), Near(p, WorkingSet(inst), i, horizon));
  }

  /** Farthest-next-use eviction: if a victim is needed before the horizon, so is every survivor. */
  lemma {:induction false} SurvivorsAreNear(c: Config, i: nat, s: State, v: Id, horizon: nat)
    requires c.policy == Belady && i < |c.p.insts| && c.budget > 0
    requires MakeRoom(c, i, s).Some? && v in MakeRoom(c, i, s).value
    requires NextUse(c.p, v, i) < horizon
    ensures var kept := s.resident - SetOf(MakeRoom(c, i, s).value) - WorkingSet(c.p.insts[i]);
      Near(c.p, kept, i + 1, horizon) == kept
  {
    var kept := s.resident - SetOf(MakeRoom(c, i, s).value) - WorkingSet(c.p.insts[i]);
    forall x | x in kept ensures NextUse(c.p, x, i + 1) < horizon {
      EvictionsPrefer(c, i, s.lastTouch, s.resident, Incoming(c, i, s.resident), v, x);
      NextUseSkips(c.p, x, i);
    }
  }

  /** In slot mode an eviction leaves the device exactly full. */
  lemma {:induction false} EvictionFillsDevice(c: Config, i: nat, s: State)
    requires c.units == Slots && i < |c.p.insts| && c.budget > 0 && Valid(c.p)
    requires s.resident <= DefinedBefore(c.p, i)
    requires MakeRoom(c, i, s).Some? && MakeRoom(c, i, s).value != []
    ensures |AtDispatch(c, i, s, MakeRoom(c, i, s).value)| == c.budget
  {
    var victims := MakeRoom(c, i, s).value;
    EvictionsFit(c, i, s.lastTouch, s.resident, Incoming(c, i, s.resident));
    RoomIsMade(c, i, s);
    DispatchCost(c, i, s, victims);
    SumSlots(AtDispatch(c, i, s, victims));
  }

  /** Staying ahead through one instruction, for the ids outside the working set. */
  lemma {:induction false} AheadAtDispatch(
      c: Config, s: State, held: set<Id>, next: set<Id>, loads: nat, i: nat, horizon: nat)
    requires c.policy == Belady && c.units == Slots && i < |c.p.insts| && Valid(c.p)
    requires s.resident <= DefinedBefore(c.p, i) && MakeRoom(c, i, s).Some?
    requires WorkingSet(c.p.insts[i]) <= next && (c.budget > 0 ==> |next| <= c.budget) && i + 1 < horizon
    requires Ahead(c, s, held, loads, i, horizon) && Ahead(c, s, held, loads, i, i + 1)
    ensures var w := WorkingSet(c.p.insts[i]);
      s.stats.prefetches + |Missing(c, i, s.resident)| + |Near(c.p, next - w, i + 1, horizon)|
      <= loads + |next - held - {c.p.insts[i].resultId}|
        + |Near(c.p, AtDispatch(c, i, s, MakeRoom(c, i, s).value) - w, i + 1, horizon)|
  {
    var victims := MakeRoom(c, i, s).value;
    var w := WorkingSet(c.p.insts[i]);
    var kept := s.resident - SetOf(victims) - w;
    assert AtDispatch(c, i, s, victims) - w == kept;
    RoomIsMade(c, i, s);
    if v :| v in victims && NextUse(c.p, v, i) < horizon {
      SurvivorsAreNear(c, i, s, v, horizon);
      EvictionFillsDevice(c, i, s);
      PrefetchesCovered(c, s, held, next, loads, i);
      SubsetCardinality(Near(c.p, next - w, i + 1, horizon), next - w);
      CardinalityOfParts(next, w, next - w);
      CardinalityOfParts(AtDispatch(c, i, s, victims), w, kept);
    } else {
      AheadOutside(c, s, held, next, loads, i, horizon);
      forall x | x in SetOf(victims) ensures NextUse(c.p, x, i + 1) >= horizon {
        NextUseSkips(c.p, x, i);
      }
      assert Near(c.p, kept, i + 1, horizon) == Near(c.p, s.resident - w, i + 1, horizon);
    }
  }

  /** Back from the ids outside the working set to all of them. */
  lemma {:induction false} AheadFromOutside(
      c: Config, i: nat, device: set<Id>, next: set<Id>, prefetches: nat, loads: nat, horizon: nat)
    requires i < |c.p.insts| && horizon <= |c.p.insts|
    requires WorkingSet(c.p.insts[i]) <= next && WorkingSet(c.p.insts[i]) <= device
    requires prefetches + |Near(c.p, next - WorkingSet(c.p.insts[i]), i + 1, horizon)|
      <= loads + |Near(c.p, device - WorkingSet(c.p.insts[i]), i + 1, horizon)|
    ensures prefetches + |Near(c.p, next, i + 1, horizon)| <= loads + |Near(c.p, device - Dead(c, i), i + 1, horizon)|
  {
    hide Near; hide Dead; hide WorkingSet;
    DeadAreNotNear(c, i, device, horizon);
    NearSplits(c.p, c.p.insts[i], device, i + 1, horizon);
    NearSplits(c.p, c.p.insts[i], next, i + 1, horizon);
  }

  lemma {:induction false} StepStaysAhead(
      c: Config, s: State, held: set<Id>, next: set<Id>, loads: nat, i: nat, horizon: nat)
    requires c.policy == Belady && c.units == Slots && i < |c.p.insts| && Valid(c.p) && horizon <= |c.p.insts|
    requires s.resident <= DefinedBefore(c.p, i) && Step(c, i, s).Some?
    requires WorkingSet(c.p.insts[i]) <= next && (c.budget > 0 ==> |next| <= c.budget)
    requires Ahead(c, s, held, loads, i, horizon) && Ahead(c, s, held, loads, i, i + 1)
    ensures Ahead(c, Step(c, i, s).value, next, loads + |next - held - {c.p.insts[i].resultId}|, i + 1, horizon)
  {
    StepEffect(c, i, s);
    hide Step;
    var victims := MakeRoom(c, i, s).value;
    var device := AtDispatch(c, i, s, victims);
    if i + 1 < horizon {
      AheadAtDispatch(c, s, held, next, loads, i, horizon);
      RoomIsMade(c, i, s);
      DispatchParts(c, i, s, victims);
      hide MakeRoom; hide AtDispatch; hide Near; hide Dead;
      AheadFromOutside(c, i, device, next, s.stats.prefetches + |Missing(c, i, s.resident)|,
        loads + |next - held - {c.p.insts[i].resultId}|, horizon);
    } else {
      hide MakeRoom; hide AtDispatch; hide Dead;
      PrefetchesCovered(c, s, held, next, loads, i);
      assert Near(c.p, next, i + 1, horizon) == {};
    }
  }

  // ----- whole runs -----

  lemma ScheduleStep(c: Config, r: seq<set<Id>>, i: nat)
    requires IsSchedule(c, r) && 0 < i <= |r|
    ensures WorkingSet(c.p.insts[i - 1]) <= r[i - 1]
    ensures c.units == Slots && c.budget > 0 ==> |r[i - 1]| <= c.budget
    ensures Held(r, i) == r[i - 1]
    ensures Loads(c, r, i) ==
      Loads(c, r, i - 1) + |r[i - 1] - Held(r, i - 1) - {c.p.insts[i - 1].resultId}|
  {
    SumSlots(r[i - 1]);
    hide WorkingSet; hide SumCost;
  }

  lemma {:induction false} RunStaysAhead(c: Config, t: seq<State>, r: seq<set<Id>>, i: nat, horizon: nat)
    requires c.policy == Belady && c.units == Slots && Valid(c.p) && IsRun(c, t) && IsSchedule(c, r)
    requires i < |t| && horizon <= |c.p.insts|
    ensures Ahead(c, t[i], Held(r, i), Loads(c, r, i), i, horizon)
  {
    hide *;
    RunStartsAhead(c, t, r, horizon);
    if i > 0 {
      RunStaysAhead(c, t, r, i - 1, horizon);
      RunStaysAhead(c, t, r, i - 1, i);
      RunLink(c, t, i - 1);
      ScheduleStep(c, r, i);
      StepStaysAhead(c, t[i - 1], Held(r, i - 1), r[i - 1], Loads(c, r, i - 1), i - 1, horizon);
    }
  }

  lemma RunStartsAhead(c: Config, t: seq<State>, r: seq<set<Id>>, horizon: nat)
    requires IsRun(c, t) && IsSchedule(c, r)
    ensures Ahead(c, t[0], Held(r, 0), Loads(c, r, 0), 0, horizon)
    ensures |r| == |c.p.insts| && |t| <= |c.p.insts| + 1
  {
  }

  /** Belady's plan loads no more than any schedule, at every point of the run. */
  lemma {:induction false} BeladyLoadsLeast(c: Config, t: seq<State>, r: seq<set<Id>>, i: nat)
    requires c.policy == Belady && c.units == Slots && Valid(c.p) && IsRun(c, t) && IsSchedule(c, r) && i < |t|
    ensures t[i].stats.prefetches <= Loads(c, r, i)
  {
    RunStaysAhead(c, t, r, i, 0);
    assert Near(c.p, Held(r, i), i, 0) == {};
    assert Near(c.p, t[i].resident, i, 0) == {};
  }

  // ----- every plan is itself a schedule -----

  ghost function Devices(c: Config, t: seq<State>, i: nat): (r: seq<set<Id>>)
    requires IsRun(c, t) && i < |t|
    ensures |r| == i
  {
    if i == 0 then [] else Devices(c, t, i - 1) + [Device(c, t, i - 1)]
  }

  lemma {:induction false} DevicesAt(c: Config, t: seq<State>, i: nat, k: nat)
    requires IsRun(c, t) && k < i < |t|
    ensures Devices(c, t, i)[k] == Device(c, t, k)
  {
    hide AtDispatch; hide Step;
    if k < i - 1 {
      DevicesAt(c, t, i - 1, k);
    }
  }

  lemma {:induction false} DeadAreNotRead(c: Config, i: nat)
    requires i + 1 < |c.p.insts|
    ensures Dead(c, i) !! OperandIds(c.p.insts[i + 1])
  {
    forall x | x in Dead(c, i) ensures x !in OperandIds(c.p.insts[i + 1]) {
      NextUseMonotone(c.p, x, 0, i + 1);
    }
  }

  lemma NewArrivals(result: Id, prev: set<Id>, dead: set<Id>, evicted: set<Id>, missing: set<Id>, device: set<Id>)
    requires device == prev - dead - evicted + {result} + missing
    requires missing !! prev && result !in missing
    ensures device - prev - {result} == missing
  {
  }

  /** What a plan prefetches is exactly what its device contents, read as a schedule, load. */
  lemma {:induction false} PrefetchIsLoad(c: Config, t: seq<State>, r: seq<set<Id>>, i: nat)
    requires Valid(c.p) && IsRun(c, t) && i + 1 < |t|
    requires |r| == |c.p.insts| && r[i] == Device(c, t, i)
    requires i > 0 ==> r[i - 1] == Device(c, t, i - 1)
    ensures Loaded(c, r, i) == Missing(c, i, t[i].resident)
  {
    hide Step; hide Device; hide Dead; hide OperandIds; hide NextUse; hide Valid; hide IsRun;
    RunStart(c, t);
    var result := c.p.insts[i].resultId;
    DeviceFlow(c, t, i);
    var evicted := SetOf(t[i + 1].actions[i].evict);
    if i == 0 {
      NewArrivals(result, {}, {}, evicted, Missing(c, i, {}), r[i]);
    } else {
      DeadAreNotRead(c, i - 1);
      DeviceFlow(c, t, i - 1);
      NewArrivals(result, r[i - 1], Dead(c, i - 1), evicted, Missing(c, i, t[i].resident), r[i]);
    }
  }

  lemma RunStart(c: Config, t: seq<State>)
    requires IsRun(c, t)
    ensures t[0] == Start && t[0].resident == {} && |t| <= |c.p.insts| + 1
    ensures t[0].stats.evicts == t[0].stats.prefetches == 0
  {
  }

  lemma {:induction false} PlanLoads(c: Config, t: seq<State>, r: seq<set<Id>>, i: nat)
    requires Valid(c.p) && IsRun(c, t) && i < |t|
    requires |r| == |c.p.insts| && (forall k :: 0 <= k < |t| - 1 ==> r[k] == Device(c, t, k))
    ensures |t| <= |r| + 1 && Loads(c, r, i) == t[i].stats.prefetches
  {
    hide *;
    RunStart(c, t);
    if i > 0 {
      PlanLoads(c, t, r, i - 1);
      PrefetchIsLoad(c, t, r, i - 1);
      RunEffect(c, t, i - 1);
      DispatchIs(c, i - 1, t[i - 1], MakeRoom(c, i - 1, t[i - 1]).value);
      LoadsStep(c, r, i - 1);
    } else {
      NothingDropped(c, r);
    }
  }

  lemma Departures(resident: set<Id>, victims: seq<Id>, w: set<Id>, prev: set<Id>, released: set<Id>)
    requires NoDup(victims) && SetOf(victims) <= resident - w && resident == prev - released
    ensures |prev - released - (resident - SetOf(victims) + w)| == |victims|
  {
    SetOfSize(victims);
    assert prev - released - (resident - SetOf(victims) + w) == SetOf(victims);
  }

  /** And what it evicts is what they drop. */
  lemma {:induction false} EvictionIsDrop(c: Config, t: seq<State>, r: seq<set<Id>>, i: nat)
    requires Valid(c.p) && IsRun(c, t) && i + 1 < |t|
    requires |r| == |c.p.insts| && r[i] == Device(c, t, i) && (i > 0 ==> r[i - 1] == Device(c, t, i - 1))
    ensures t[i + 1].stats.evicts == t[i].stats.evicts + |Dropped(c, r, i)|
  {
    hide *;
    RunStart(c, t);
    RunEffect(c, t, i);
    RoomIsMade(c, i, t[i]);
    var victims := MakeRoom(c, i, t[i]).value;
    if i > 0 { RunEffect(c, t, i - 1); }
    DroppedIs(c, r, i);
    DispatchIs(c, i, t[i], victims);
    Departures(t[i].resident, victims, WorkingSet(c.p.insts[i]), Held(r, i), Released(c, i));
  }

  lemma DroppedIs(c: Config, r: seq<set<Id>>, i: nat)
    requires |r| == |c.p.insts| && i < |r|
    ensures Dropped(c, r, i) == Held(r, i) - Released(c, i) - r[i]
    ensures Held(r, i) == (if i == 0 then {} else r[i - 1])
    ensures Released(c, i) == (if i == 0 then {} else Dead(c, i - 1))
  {
    hide Dead;
  }

  lemma DispatchIs(c: Config, i: nat, s: State, victims: seq<Id>)
    requires i < |c.p.insts|
    ensures AtDispatch(c, i, s, victims) == s.resident - SetOf(victims) + WorkingSet(c.p.insts[i])
    ensures StatsAfter(c, i, s, victims).evicts == s.stats.evicts + |victims|
    ensures StatsAfter(c, i, s, victims).prefetches == s.stats.prefetches + |Missing(c, i, s.resident)|
  {
    hide AtDispatch; hide Missing; hide SumCost;
    DispatchIsUnfolded(c, i, s, victims);
  }

  lemma DispatchIsUnfolded(c: Config, i: nat, s: State, victims: seq<Id>)
    requires i < |c.p.insts|
    ensures AtDispatch(c, i, s, victims) == s.resident - SetOf(victims) + WorkingSet(c.p.insts[i])
  {
  }

  lemma LoadsStep(c: Config, r: seq<set<Id>>, i: nat)
    requires |r| == |c.p.insts| && i < |r|
    ensures Loads(c, r, i + 1) == Loads(c, r, i) + |Loaded(c, r, i)|
    ensures Drops(c, r, i + 1) == Drops(c, r, i) + |Dropped(c, r, i)|
    ensures Loads(c, r, 0) == Drops(c, r, 0) == 0
  {
    hide Loaded; hide Dropped;
  }

  lemma {:induction false} PlanDrops(c: Config, t: seq<State>, r: seq<set<Id>>, i: nat)
    requires Valid(c.p) && IsRun(c, t) && i < |t|
    requires |r| == |c.p.insts| && (forall k :: 0 <= k < |t| - 1 ==> r[k] == Device(c, t, k))
    ensures |t| <= |r| + 1 && Drops(c, r, i) == t[i].stats.evicts
  {
    hide *;
    RunStart(c, t);
    if i > 0 {
      PlanDrops(c, t, r, i - 1);
      EvictionIsDrop(c, t, r, i - 1);
      LoadsStep(c, r, i - 1);
    } else {
      NothingDropped(c, r);
    }
  }

  lemma NothingDropped(c: Config, r: seq<set<Id>>)
    requires |r| == |c.p.insts|
    ensures Drops(c, r, 0) == Loads(c, r, 0) == 0
  {
  }

  // ----- evictions -----

  /** A schedule that holds only ids defined by then. */
  ghost predicate HoldsDefined(c: Config, r: seq<set<Id>>) {
    |r| == |c.p.insts| && forall i :: 0 <= i < |r| ==> r[i] <= DefinedBefore(c.p, i + 1)
  }

  lemma DropsOneStep(r: set<Id>, held: set<Id>, released: set<Id>, result: Id)
    requires result in r && result !in held
    ensures |held| + |r - held - {result}| + 1 <= |r| + |held - released - r| + |released|
  {
    CardinalityOfParts(r, r * held, r - held);
    CardinalityOfParts(r - held, r - held - {result}, {result});
    CardinalityOfParts(held, r * held, held - r);
    assert held - r <= (held - released - r) + released * held;
    CardinalityOfParts(held - r, held - released - r, released * held - r);
    SubsetCardinality(released * held - r, released);
  }

  /** What a schedule holds came in and was not dropped, save what was released. */
  lemma {:induction false} ScheduleConserves(c: Config, r: seq<set<Id>>, i: nat)
    requires Valid(c.p) && IsSchedule(c, r) && HoldsDefined(c, r) && i < |r|
    ensures |r| == |c.p.insts| && i + 1 + Loads(c, r, i + 1) <= Drops(c, r, i + 1) + |r[i]| + FreesBefore(c, i)
  {
    hide *;
    HoldsResult(c, r, i);
    LoadsStep(c, r, i);
    LoadedIs(c, r, i);
    DroppedIs(c, r, i);
    FreesStep(c, i);
    DropsOneStep(r[i], Held(r, i), Released(c, i), c.p.insts[i].resultId);
    if i > 0 {
      ScheduleConserves(c, r, i - 1);
    }
  }

  lemma LoadedIs(c: Config, r: seq<set<Id>>, i: nat)
    requires |r| == |c.p.insts| && i < |r|
    ensures Loaded(c, r, i) == r[i] - Held(r, i) - {c.p.insts[i].resultId}
  {
  }

  lemma FreesStep(c: Config, i: nat)
    requires i < |c.p.insts|
    ensures FreesBefore(c, i) == |Released(c, i)| + if i == 0 then 0 else FreesBefore(c, i - 1)
  {
    hide Dead;
  }

  lemma HoldsResult(c: Config, r: seq<set<Id>>, i: nat)
    requires Valid(c.p) && IsSchedule(c, r) && HoldsDefined(c, r) && i < |r|
    ensures |r| == |c.p.insts| && c.p.insts[i].resultId in r[i] && c.p.insts[i].resultId !in Held(r, i)
  {
    hide DefinedBefore; hide OperandIds;
    ValidAt(c.p, i);
    assert WorkingSet(c.p.insts[i]) <= r[i];
    assert c.p.insts[i].resultId in WorkingSet(c.p.insts[i]);
  }

  /** The plan's evictions, counted at the dispatch of an instruction that evicts. */
  lemma {:induction false} EvictionsCounted(c: Config, t: seq<State>, i: nat)
    requires c.units == Slots && Valid(c.p) && IsRun(c, t) && i + 1 < |t|
    ensures t[i + 1].stats.evicts >= t[i].stats.evicts
    ensures t[i + 1].stats.evicts > t[i].stats.evicts ==>
      (c.budget > 0 &&
       t[i + 1].stats.evicts + c.budget + FreesBefore(c, i) == i + 1 + t[i + 1].stats.prefetches)
  {
    hide *;
    RunEffect(c, t, i);
    RoomIsMade(c, i, t[i]);
    ResidentsConserved(c, t, i);
    var victims := MakeRoom(c, i, t[i]).value;
    DispatchIs(c, i, t[i], victims);
    DispatchCount(c, i, t[i], victims);
    if victims != [] {
      UnlimitedMakesNoRoom(c, i, t[i]);
      EvictionFillsDevice(c, i, t[i]);
    }
  }

  lemma UnlimitedMakesNoRoom(c: Config, i: nat, s: State)
    requires i < |c.p.insts|
    ensures c.budget == 0 ==> MakeRoom(c, i, s) == Some([])
  {
  }

  /** Belady's plan evicts no more than the schedule drops, at every point of the run. */
  lemma {:induction false} BeladyDropsLeast(c: Config, t: seq<State>, r: seq<set<Id>>, i: nat)
    requires c.policy == Belady && c.units == Slots && Valid(c.p) && IsRun(c, t) && i < |t|
    requires IsSchedule(c, r) && HoldsDefined(c, r)
    ensures |t| <= |r| + 1 && |r| == |c.p.insts| && t[i].stats.evicts <= Drops(c, r, i)
  {
    hide *;
    RunStart(c, t);
    ScheduleSize(c, r);
    if i > 0 {
      BeladyDropsLeast(c, t, r, i - 1);
      EvictionsCounted(c, t, i - 1);
      LoadsStep(c, r, i - 1);
      ScheduleStep(c, r, i);
      BeladyLoadsLeast(c, t, r, i);
      ScheduleConserves(c, r, i - 1);
    }
  }

  lemma ScheduleSize(c: Config, r: seq<set<Id>>)
    requires IsSchedule(c, r)
    ensures |r| == |c.p.insts| && Drops(c, r, 0) == 0
  {
  }

  /** A schedule without the ids it holds before they are defined. */
  function Trimmed(c: Config, r: seq<set<Id>>): (s: seq<set<Id>>)
    requires |r| == |c.p.insts|
    ensures |s| == |r|
  {
    seq(|r|, i requires 0 <= i < |r| => r[i] * DefinedBefore(c.p, i + 1))
  }

  lemma {:induction false} TrimmedIsSchedule(c: Config, r: seq<set<Id>>)
    requires Valid(c.p) && IsSchedule(c, r)
    ensures |r| == |c.p.insts| && IsSchedule(c, Trimmed(c, r)) && HoldsDefined(c, Trimmed(c, r))
  {
    hide WorkingSet; hide DefinedBefore; hide Valid; hide SumCost;
    var s := Trimmed(c, r);
    forall i | 0 <= i < |s|
      ensures WorkingSet(c.p.insts[i]) <= s[i] && (c.budget > 0 ==> SumCost(c.units, s[i]) <= c.budget)
    {
      WorkingSetDefined(c.p, i);
      SumSplit(c.units, s[i], r[i]);
    }
  }

  lemma WorkingSetDefined(p: Program, i: nat)
    requires Valid(p) && i < |p.insts|
    ensures WorkingSet(p.insts[i]) <= DefinedBefore(p, i + 1)
  {
    hide DefinedBefore; hide OperandIds;
    ValidAt(p, i);
    DefinedBeforeGrows(p, i);
  }

  lemma FewerArrivals(next: set<Id>, held: set<Id>, trimmed: set<Id>, defined: set<Id>, result: Id)
    requires trimmed == held * defined
    ensures |next * (defined + {result}) - trimmed - {result}| <= |next - held - {result}|
  {
    SubsetCardinality(next * (defined + {result}) - trimmed - {result}, next - held - {result});
  }

  lemma {:induction false} TrimmedArrives(c: Config, r: seq<set<Id>>, i: nat)
    requires Valid(c.p) && |r| == |c.p.insts| && i < |r|
    ensures |Loaded(c, Trimmed(c, r), i)| <= |Loaded(c, r, i)|
  {
    hide *;
    var s := Trimmed(c, r);
    LoadedIs(c, r, i);
    LoadedIs(c, s, i);
    DroppedIs(c, r, i);
    DroppedIs(c, s, i);
    TrimmedAt(c, r, i);
    DefinedBeforeGrows(c.p, i);
    if i > 0 { TrimmedAt(c, r, i - 1); }
    FewerArrivals(r[i], Held(r, i), Held(s, i), DefinedBefore(c.p, i), c.p.insts[i].resultId);
  }

  /** It loads no more. */
  lemma {:induction false} TrimmedLoads(c: Config, r: seq<set<Id>>, i: nat)
    requires Valid(c.p) && |r| == |c.p.insts| && i <= |r|
    ensures Loads(c, Trimmed(c, r), i) <= Loads(c, r, i)
  {
    hide *;
    if i == 0 {
      NothingDropped(c, r);
      NothingDropped(c, Trimmed(c, r));
    } else {
      TrimmedLoads(c, r, i - 1);
      LoadsStep(c, r, i - 1);
      LoadsStep(c, Trimmed(c, r), i - 1);
      TrimmedArrives(c, r, i - 1);
    }
  }

  /** It drops no more. */
  lemma {:induction false} TrimmedDrops(c: Config, r: seq<set<Id>>, i: nat)
    requires Valid(c.p) && |r| == |c.p.insts| && i <= |r|
    ensures Drops(c, Trimmed(c, r), i) <= Drops(c, r, i)
  {
    hide *;
    if i == 0 {
      NothingDropped(c, r);
      NothingDropped(c, Trimmed(c, r));
    } else {
      var s := Trimmed(c, r);
      TrimmedDrops(c, r, i - 1);
      LoadsStep(c, r, i - 1);
      LoadsStep(c, s, i - 1);
      DroppedIs(c, r, i - 1);
      DroppedIs(c, s, i - 1);
      TrimmedAt(c, r, i - 1);
      DefinedBeforeMonotone(c.p, i - 1, i);
      if i > 1 { TrimmedAt(c, r, i - 2); }
      SubsetCardinality(Dropped(c, s, i - 1), Dropped(c, r, i - 1));
    }
  }

  lemma TrimmedAt(c: Config, r: seq<set<Id>>, i: nat)
    requires |r| == |c.p.insts| && i < |r|
    ensures |Trimmed(c, r)| == |r| && Trimmed(c, r)[i] == r[i] * DefinedBefore(c.p, i + 1)
  {
  }

  // ----- the theorems -----

  /** Any plan, under either policy, is a schedule whose loads are its prefetches and whose drops are its
      evictions. */
  lemma {:induction false} PlanIsSchedule(c: Config) returns (r: seq<set<Id>>)
    requires Valid(c.p) && PlanOf(c).Some?
    ensures IsSchedule(c, r)
    ensures Loads(c, r, |c.p.insts|) == PlanOf(c).value.stats.prefetches
    ensures Drops(c, r, |c.p.insts|) == PlanOf(c).value.stats.evicts
  {
    var n := |c.p.insts|;
    TraceIsRun(c, n);
    var t := Trace(c, n);
    hide Step;
    r := Devices(c, t, n);
    forall k | 0 <= k < n
      ensures r[k] == Device(c, t, k) && WorkingSet(c.p.insts[k]) <= r[k]
      ensures c.budget > 0 ==> SumCost(c.units, r[k]) <= c.budget
    {
      DevicesAt(c, t, n, k);
      EveryDispatchIsResident(c, t, k);
    }
    hide Device; hide Loads; hide Drops; hide IsRun;
    PlanLoads(c, t, r, n);
    PlanDrops(c, t, r, n);
  }

  /** The Belady plan prefetches no more than any schedule loads and evicts no more than it drops; by
      PlanIsSchedule a schedule attains both. */
  lemma {:induction false} BeladyIsOptimal(c: Config, r: seq<set<Id>>)
    requires c.policy == Belady && c.units == Slots && Valid(c.p) && PlanOf(c).Some?
    requires IsSchedule(c, r)
    ensures PlanOf(c).value.stats.prefetches <= Loads(c, r, |c.p.insts|)
    ensures PlanOf(c).value.stats.evicts <= Drops(c, r, |c.p.insts|)
  {
    var n := |c.p.insts|;
    TraceIsRun(c, n);
    hide IsSchedule; hide Loads; hide Drops; hide IsRun; hide Valid; hide Trimmed; hide HoldsDefined;
    BeladyLoadsLeast(c, Trace(c, n), r, n);
    TrimmedIsSchedule(c, r);
    TrimmedDrops(c, r, n);
    BeladyDropsLeast(c, Trace(c, n), Trimmed(c, r), n);
  }

  lemma {:induction false} LoadsIgnorePolicy(c: Config, d: Config, r: seq<set<Id>>, i: nat)
    requires c.p == d.p && |r| == |c.p.insts| && i <= |r|
    ensures Loads(c, r, i) == Loads(d, r, i)
  {
    hide *;
    if i == 0 {
      NothingDropped(c, r);
      NothingDropped(d, r);
    } else {
      LoadsIgnorePolicy(c, d, r, i - 1);
      LoadsStep(c, r, i - 1);
      LoadsStep(d, r, i - 1);
      LoadedIs(c, r, i - 1);
      LoadedIs(d, r, i - 1);
    }
  }

  /** What is pinned is not released, and counts as dropped. */
  lemma {:induction false} PinsDropMore(c: Config, d: Config, r: seq<set<Id>>, i: nat)
    requires c.p == d.p && c.pinned <= d.pinned && |r| == |c.p.insts| && i <= |r|
    ensures Drops(c, r, i) <= Drops(d, r, i)
  {
    hide *;
    if i == 0 {
      NothingDropped(c, r);
      NothingDropped(d, r);
    } else {
      PinsDropMore(c, d, r, i - 1);
      LoadsStep(c, r, i - 1);
      LoadsStep(d, r, i - 1);
      DroppedIs(c, r, i - 1);
      DroppedIs(d, r, i - 1);
      if i > 1 { PinsReleaseLess(c, d, i - 2); }
      SubsetCardinality(Dropped(c, r, i - 1), Dropped(d, r, i - 1));
    }
  }

  lemma PinsReleaseLess(c: Config, d: Config, i: nat)
    requires c.p == d.p && c.pinned <= d.pinned && i < |c.p.insts|
    ensures Dead(d, i) <= Dead(c, i)
  {
    hide NextUse; hide OperandIds;
  }

  /** No other plan of the same program under the same budget prefetches less: not the Lru baseline,
      nor a plan that pins other ids. Nor does one evict less, unless it pins less. */
  lemma {:induction false} BeladyBeatsEveryPlan(belady: Config, other: Config)
    requires Valid(belady.p) && belady.policy == Belady && belady.units == other.units == Slots
    requires other.p == belady.p && other.budget == belady.budget
    ensures PlanOf(belady).Some? <==> PlanOf(other).Some?
    ensures PlanOf(other).Some? ==>
      PlanOf(belady).value.stats.prefetches <= PlanOf(other).value.stats.prefetches
    ensures PlanOf(other).Some? && belady.pinned <= other.pinned ==>
      PlanOf(belady).value.stats.evicts <= PlanOf(other).value.stats.evicts
  {
    PlanExistsIff(belady);
    PlanExistsIff(other);
    hide PlanOf; hide Drops; hide Loads;
    if PlanOf(other).Some? {
      var r := PlanIsSchedule(other);
      LoadsIgnorePolicy(belady, other, r, |r|);
      assert IsSchedule(belady, r);
      BeladyIsOptimal(belady, r);
      if belady.pinned <= other.pinned { PinsDropMore(belady, other, r, |r|); }
    }
  }
}
