/** Which ids have a buffer before each instruction of a plan. */
module Liveness {
  import opened Fhn
  import opened Sets
  import opened MovementPlan
  import opened Residency
  import opened Lifetimes

  /** What the first `i` instructions of a plan release. */
  ghost function FreedBefore(c: Config, i: nat): set<Id>
    requires PlanOf(c).Some? && i <= |PlanOf(c).value.actions|
  {
    if i == 0 then {} else FreedBefore(c, i - 1) + SetOf(PlanOf(c).value.actions[i - 1].free)
  }

  lemma {:induction false} FreedMeansDead(c: Config, i: nat, x: Id)
    requires Valid(c.p) && PlanOf(c).Some? && i <= |c.p.insts| == |PlanOf(c).value.actions|
    ensures x in FreedBefore(c, i) <==> exists k :: 0 <= k < i && DiesAt(c, x, k)
  {
    hide PlanOf; hide DiesAt; hide Valid;
    if i > 0 {
      FreedMeansDead(c, i - 1, x);
      FreeLists(c, i - 1);
    }
  }

  /** Nothing an instruction touches has been released before it. */
  lemma {:induction false} WorkingSetAlive(c: Config, i: nat)
    requires Valid(c.p) && PlanOf(c).Some? && i < |c.p.insts| == |PlanOf(c).value.actions|
    ensures WorkingSet(c.p.insts[i]) !! FreedBefore(c, i)
  {
    hide PlanOf; hide DiesAt; hide Valid; hide WorkingSet; hide FreedBefore;
    forall x | x in FreedBefore(c, i) ensures x !in WorkingSet(c.p.insts[i]) {
      FreedMeansDead(c, i, x);
      var k :| 0 <= k < i && DiesAt(c, x, k);
      DeadForGood(c, x, k, i);
    }
  }

  /** What an instruction releases is still there. */
  lemma {:induction false} FreesAlive(c: Config, i: nat)
    requires Valid(c.p) && PlanOf(c).Some? && i < |c.p.insts| == |PlanOf(c).value.actions|
    ensures var free := PlanOf(c).value.actions[i].free;
      && NoDup(free)
      && SetOf(free) <= DefinedBefore(c.p, i + 1) - FreedBefore(c, i) - c.pinned
  {
    hide PlanOf; hide DiesAt; hide Valid; hide FreedBefore; hide NoDup;
    FreeLists(c, i);
    var free := PlanOf(c).value.actions[i].free;
    forall x | x in free ensures x in DefinedBefore(c.p, i + 1) && x !in FreedBefore(c, i) && x !in c.pinned {
      FreedMeansDead(c, i, x);
      if k :| 0 <= k < i && DiesAt(c, x, k) {
        DiesAtOneInstruction(c, x, k, i);
      }
      DyingIsDefined(c, x, i);
    }
  }

  lemma {:induction false} DyingIsDefined(c: Config, x: Id, k: nat)
    requires Valid(c.p) && DiesAt(c, x, k)
    ensures x in DefinedBefore(c.p, k + 1) && x !in c.pinned
  {
    UnusedInputsAre(c, |c.p.inputs|);
    DefinedBeforeGrows(c.p, k);
    hide NextUse;
  }

  /** In the end everything the plan owns has been released. */
  lemma {:induction false} AllFreed(c: Config)
    requires Valid(c.p) && PlanOf(c).Some? && |c.p.insts| == |PlanOf(c).value.actions| > 0
    ensures FreedBefore(c, |c.p.insts|) == Defs(c.p) - c.pinned
  {
    hide PlanOf; hide DiesAt; hide Valid; hide FreedBefore; hide Defs;
    var n := |c.p.insts|;
    forall x ensures x in FreedBefore(c, n) <==> x in Defs(c.p) - c.pinned {
      FreedMeansDead(c, n, x);
      if k :| 0 <= k < n && DiesAt(c, x, k) {
        DyingIsDefined(c, x, k);
        DefinedBeforeMonotone(c.p, k + 1, n);
        DefsAre(c.p);
      }
      if x in Defs(c.p) && x !in c.pinned {
        var k := EveryIdDies(c, x);
        DiesInRange(c, x, k);
      }
    }
  }

  lemma DefsAre(p: Program)
    ensures Defs(p) == DefinedBefore(p, |p.insts|)
  {
  }

  lemma DiesInRange(c: Config, x: Id, k: nat)
    requires DiesAt(c, x, k)
    ensures k < |c.p.insts|
  {
  }

  /** The ids that have a buffer before instruction `i`. */
  ghost function Live(c: Config, i: nat): set<Id>
    requires PlanOf(c).Some? && i <= |c.p.insts| == |PlanOf(c).value.actions|
  {
    DefinedBefore(c.p, i) - FreedBefore(c, i)
  }

  /** Device residents have buffers. */
  lemma {:induction false} ResidentsAlive(c: Config, i: nat)
    requires Valid(c.p) && PlanOf(c).Some? && i <= |c.p.insts| == |PlanOf(c).value.actions|
    ensures Run(c, |c.p.insts|).Some? && IsRun(c, Trace(c, |c.p.insts|))
    ensures |Trace(c, |c.p.insts|)| == |c.p.insts| + 1
    ensures Trace(c, |c.p.insts|)[i].resident <= Live(c, i)
  {
    TraceIsRun(c, |c.p.insts|);
    var t := Trace(c, |c.p.insts|);
    RunKeepsOk(c, t, i);
    assert t[i].resident <= DefinedBefore(c.p, i);
    hide Trace; hide PlanOf; hide DiesAt; hide Valid; hide FreedBefore; hide IsRun; hide StateOk; hide DefinedBefore;
    forall x | x in FreedBefore(c, i) ensures x !in t[i].resident {
      FreedMeansDead(c, i, x);
      var k :| 0 <= k < i && DiesAt(c, x, k);
      DeadStaysAway(c, t, x, k, i);
    }
  }

  lemma {:induction false} DeadStaysAway(c: Config, t: seq<State>, x: Id, k: nat, i: nat)
    requires Valid(c.p) && IsRun(c, t) && k < i < |t| && DiesAt(c, x, k)
    ensures x !in t[i].resident
  {
    hide Step; hide Device; hide Dead; hide Valid; hide UnusedInputs; hide WorkingSet; hide DefinedBefore;
    assert i <= |c.p.insts|;
    hide IsRun;
    forall m | k < m < i ensures x !in WorkingSet(c.p.insts[m]) {
      DeadForGood(c, x, k, m);
    }
    if x in Dead(c, k) {
      DeviceFlow(c, t, k);
    } else {
      UnusedNeverResident(c, t, x, k + 1);
    }
    StaysGone(c, t, x, k + 1, i);
  }

  lemma {:induction false} UnusedNeverResident(c: Config, t: seq<State>, x: Id, i: nat)
    requires Valid(c.p) && IsRun(c, t) && i < |t| && x in UnusedInputs(c, |c.p.inputs|)
    ensures x !in t[i].resident
  {
    hide Step; hide UnusedInputs; hide WorkingSet; hide Valid;
    assert i <= |c.p.insts|;
    forall m | 0 <= m < i ensures x !in WorkingSet(c.p.insts[m]) {
      UnusedInputsAreIdle(c, x, m);
    }
    StaysGone(c, t, x, 0, i);
  }

  // ----- a plan, as its executor sees it -----

  /** The residents the planner expects before instruction `i`. */
  ghost function Resident(c: Config, i: nat): set<Id>
    requires PlanOf(c).Some? && i <= |c.p.insts|
  {
    RunToHere(c, i);
    Run(c, i).value.resident
  }

  lemma RunToHere(c: Config, i: nat)
    requires PlanOf(c).Some? && i <= |c.p.insts|
    ensures Run(c, i).Some?
  {
    hide Step;
    TraceIsRun(c, |c.p.insts|);
    RunIsTrace(c, Trace(c, |c.p.insts|), i);
  }

  /** What one instruction's actions do to the residents and to the ids that have buffers. */
  ghost predicate Executes(
      c: Config, i: nat, act: Actions, resident: set<Id>, live: set<Id>, nextResident: set<Id>, nextLive: set<Id>)
    requires i < |c.p.insts|
  {
    var inst := c.p.insts[i];
    && resident <= live
    && NoDup(act.evict) && SetOf(act.evict) <= resident - WorkingSet(inst) && (c.budget == 0 ==> act.evict == [])
    && act.alloc == [inst.resultId] && inst.resultId !in live && inst.resultId !in c.p.inputs
    && SetOf(act.prefetch) == OperandIds(inst) - resident && OperandIds(inst) <= live
    && NoDup(act.free) && SetOf(act.free) <= live + {inst.resultId} && SetOf(act.free) !! c.pinned
    && nextLive == live + {inst.resultId} - SetOf(act.free)
    && nextResident == resident - SetOf(act.evict) + {inst.resultId} + SetOf(act.prefetch) - SetOf(act.free)
  }

  lemma {:induction false} PlanExecutes(c: Config, i: nat)
    requires Valid(c.p) && PlanOf(c).Some? && i < |c.p.insts| == |PlanOf(c).value.actions|
    ensures Executes(c, i, PlanOf(c).value.actions[i], Resident(c, i), Live(c, i), Resident(c, i + 1), Live(c, i + 1))
  {
    hide *;
    var n := |c.p.insts|;
    RunToHere(c, n);
    var t := Trace(c, n);
    ResidentsAlive(c, i);
    ResidentsAlive(c, i + 1);
    PlanActions(c, i);
    PlannedActions(c, t, i);
    RunEffect(c, t, i);
    DeviceFlow(c, t, i);
    StepMoves(c, i, t[i]);
    FreesAlive(c, i);
    WorkingSetAlive(c, i);
    ResidentIs(c, t, i);
    ResidentIs(c, t, i + 1);
    DeadAreFreed(c, i);
    PlanExecutesFrom(c, i, t[i], t[i + 1].resident, PlanOf(c).value.actions[i]);
  }

  lemma DeadAreFreed(c: Config, i: nat)
    requires Valid(c.p) && PlanOf(c).Some? && i < |c.p.insts| == |PlanOf(c).value.actions|
    ensures Dead(c, i) <= SetOf(PlanOf(c).value.actions[i].free)
  {
    hide PlanOf; hide Dead; hide Valid;
    FreeLists(c, i);
  }

  lemma ResidentIs(c: Config, t: seq<State>, i: nat)
    requires PlanOf(c).Some? && IsRun(c, t) && i < |t|
    ensures i <= |c.p.insts| && Resident(c, i) == t[i].resident
  {
    hide Step;
    RunIsTrace(c, t, i);
  }

  /** The set arithmetic of one instruction. */
  lemma LiveArithmetic(
      defined: set<Id>, freed: set<Id>, result: Id, operands: set<Id>, free: set<Id>, device: set<Id>, next: set<Id>)
    requires result !in defined && operands <= defined && ({result} + operands) !! freed
    requires free <= defined + {result} - freed
    requires next <= device && device - free <= next && next <= defined + {result} - (freed + free)
    ensures result !in defined - freed && operands <= defined - freed && free <= defined - freed + {result}
    ensures defined + {result} - (freed + free) == defined - freed + {result} - free
    ensures next == device - free
  {
  }

  lemma {:induction false} PlanExecutesFrom(c: Config, i: nat, s: State, nextResident: set<Id>, act: Actions)
    requires Valid(c.p) && PlanOf(c).Some? && i < |c.p.insts| == |PlanOf(c).value.actions|
    requires s.resident <= Live(c, i) && nextResident <= Live(c, i + 1)
    requires MakeRoom(c, i, s).Some? && act == PlanOf(c).value.actions[i]
    requires act.evict == MakeRoom(c, i, s).value && act.alloc == [c.p.insts[i].resultId]
    requires act.prefetch == Sorted(Missing(c, i, s.resident))
    requires nextResident == AtDispatch(c, i, s, act.evict) - Dead(c, i)
    requires AtDispatch(c, i, s, act.evict) - SetOf(act.free) <= nextResident
    requires NoDup(act.free) && SetOf(act.free) <= DefinedBefore(c.p, i + 1) - FreedBefore(c, i) - c.pinned
    requires WorkingSet(c.p.insts[i]) !! FreedBefore(c, i)
    ensures Executes(c, i, act, s.resident, Live(c, i), nextResident, Live(c, i + 1))
  {
    hide PlanOf; hide Dead; hide NoDup; hide SumCost; hide Evictions; hide OperandIds; hide MakeRoom; hide Sorted;
    hide FreedBefore; hide DefinedBefore; hide Valid; hide AtDispatch;
    var inst := c.p.insts[i];
    RoomIsMade(c, i, s);
    UnlimitedRoom(c, i, s);
    SortedEnumerates(Missing(c, i, s.resident));
    DefinedBeforeGrows(c.p, i);
    DispatchParts(c, i, s, act.evict);
    ResultIsNew(c.p, i);
    FreedGrows(c, i);
    LiveArithmetic(DefinedBefore(c.p, i), FreedBefore(c, i), inst.resultId, OperandIds(inst), SetOf(act.free),
      AtDispatch(c, i, s, act.evict), nextResident);
    hide SetOf; hide WorkingSet;
  }

  lemma UnlimitedRoom(c: Config, i: nat, s: State)
    requires i < |c.p.insts|
    ensures c.budget == 0 ==> MakeRoom(c, i, s) == Some([])
  {
  }

  lemma FreedGrows(c: Config, i: nat)
    requires PlanOf(c).Some? && i < |PlanOf(c).value.actions|
    ensures FreedBefore(c, i + 1) == FreedBefore(c, i) + SetOf(PlanOf(c).value.actions[i].free)
  {
  }

  lemma ResultIsNew(p: Program, i: nat)
    requires Valid(p) && i < |p.insts|
    ensures p.insts[i].resultId !in DefinedBefore(p, i) && p.insts[i].resultId !in p.inputs
    ensures OperandIds(p.insts[i]) <= DefinedBefore(p, i)
  {
  }
}
