/** When a plan releases buffers: once each, as soon as nothing can read them, pinned ones never. */
module Lifetimes {
  import opened Fhn
  import opened Sets
  import opened MovementPlan
  import opened Residency

  /** The actions of one instruction in a finished run. */
  lemma {:induction false} PlannedActions(c: Config, t: seq<State>, i: nat)
    requires IsRun(c, t) && i + 1 < |t|
    ensures |t[|t| - 1].actions| == |t| - 1
    ensures MakeRoom(c, i, t[i]).Some?
    ensures t[|t| - 1].actions[i] == Actions(MakeRoom(c, i, t[i]).value, [c.p.insts[i].resultId],
      Sorted(Missing(c, i, t[i].resident)), Sorted(Dead(c, i)))
  {
    ActionsGrow(c, t, i, i);
    ActionsGrow(c, t, i + 1, |t| - 1);
    assert Linked(c, t, i);
    assert t[i + 1].actions[i] == t[|t| - 1].actions[i];
  }

  /** An id that is off the device and never named again stays off it. */
  lemma {:induction false} StaysGone(c: Config, t: seq<State>, x: Id, k: nat, j: nat)
    requires Valid(c.p) && IsRun(c, t) && k <= j < |t|
    requires x !in t[k].resident
    requires forall m :: k <= m < j ==> x !in WorkingSet(c.p.insts[m])
    ensures x !in t[j].resident
    decreases j - k
  {
    if k < j {
      assert x !in WorkingSet(c.p.insts[k]);
      DeviceFlow(c, t, k);
      hide Step; hide Device; hide Dead; hide Valid; hide SetOf;
      StaysGone(c, t, x, k + 1, j);
    }
  }

  predicate Names(act: Actions, x: Id) {
    x in act.evict || x in act.alloc || x in act.prefetch || x in act.free
  }

  /** Actions name only residents and the working set. */
  lemma {:induction false} NamesAreResident(c: Config, t: seq<State>, x: Id, i: nat)
    requires Valid(c.p) && IsRun(c, t) && i + 1 < |t|
    requires x !in t[i].resident && x !in WorkingSet(c.p.insts[i])
    ensures |t[|t| - 1].actions| == |t| - 1 && !Names(t[|t| - 1].actions[i], x)
  {
    PlannedActions(c, t, i);
    RoomIsMade(c, i, t[i]);
    SortedEnumerates(Missing(c, i, t[i].resident));
    SortedEnumerates(Dead(c, i));
    hide IsRun; hide MakeRoom; hide Sorted; hide OperandIds; hide NextUse;
    assert x !in SetOf(MakeRoom(c, i, t[i]).value);
    assert x !in SetOf(Sorted(Missing(c, i, t[i].resident)));
    assert x !in SetOf(Sorted(Dead(c, i)));
  }

  // ----- where an id dies -----

  /** The last position that reads `x` among the first `i`, when some position does. */
  lemma {:induction false} LastUseExists(p: Program, x: Id, i: nat) returns (k: nat)
    requires i < |p.insts| && NextUse(p, x, i) < |p.insts|
    ensures i <= k < |p.insts| && x in OperandIds(p.insts[k]) && NextUse(p, x, k + 1) == |p.insts|
    decreases |p.insts| - i
  {
    NextUseIsFirst(p, x, i);
    var m := NextUse(p, x, i);
    if NextUse(p, x, m + 1) == |p.insts| {
      k := m;
    } else {
      k := LastUseExists(p, x, m + 1);
    }
  }

  lemma {:induction false} NoLaterUse(p: Program, x: Id, i: nat, j: nat)
    requires i <= j < |p.insts| && NextUse(p, x, i) == |p.insts|
    ensures x !in OperandIds(p.insts[j])
  {
    NextUseIsFirst(p, x, i);
  }

  /** Single assignment: a defined id is not defined again. */
  lemma {:induction false} NotRedefined(p: Program, x: Id, i: nat, j: nat)
    requires Valid(p) && i <= j < |p.insts| && x in DefinedBefore(p, i)
    ensures p.insts[j].resultId != x
  {
    DefinedBeforeMonotone(p, i, j);
  }

  /** An id dies at one instruction only. */
  lemma {:induction false} DiesOnce(c: Config, x: Id, i: nat, j: nat)
    requires Valid(c.p) && i < j < |c.p.insts|
    requires x in Dead(c, i)
    ensures x !in WorkingSet(c.p.insts[j])
  {
    NextUseMonotone(c.p, x, 0, i + 1);
    NoLaterUse(c.p, x, i + 1, j);
    DefinedBeforeGrows(c.p, i);
    NotRedefined(c.p, x, i + 1, j);
  }

  /** The epilogue's list: the inputs nothing reads, each once. */
  lemma {:induction false} UnusedInputsAre(c: Config, k: nat)
    requires Valid(c.p) && k <= |c.p.inputs|
    ensures NoDup(UnusedInputs(c, k))
    ensures forall x :: x in UnusedInputs(c, k) <==>
      x in c.p.inputs[..k] && x !in c.pinned && NextUse(c.p, x, 0) == |c.p.insts|
  {
    if k > 0 {
      UnusedInputsAre(c, k - 1);
      var y := c.p.inputs[k - 1];
      assert c.p.inputs[..k] == c.p.inputs[..k - 1] + [y];
      assert y !in c.p.inputs[..k - 1];
    }
  }

  /** Where a plan releases an id it does not have to keep. */
  ghost predicate DiesAt(c: Config, x: Id, k: nat) {
    && k < |c.p.insts|
    && (x in Dead(c, k) ||
        (k == |c.p.insts| - 1 && x in UnusedInputs(c, |c.p.inputs|)))
  }

  lemma {:induction false} EveryIdDies(c: Config, x: Id) returns (k: nat)
    requires Valid(c.p) && |c.p.insts| > 0 && x in Defs(c.p) && x !in c.pinned
    ensures DiesAt(c, x, k)
  {
    if NextUse(c.p, x, 0) < |c.p.insts| {
      k := LastUseExists(c.p, x, 0);
      assert x != c.p.insts[k].resultId;
    } else if i :| 0 <= i < |c.p.insts| && c.p.insts[i].resultId == x {
      k := i;
    } else {
      k := |c.p.insts| - 1;
      UnusedInputsAre(c, |c.p.inputs|);
      assert c.p.inputs[..|c.p.inputs|] == c.p.inputs;
    }
  }

  /** An unused input is in no working set. */
  lemma {:induction false} UnusedInputsAreIdle(c: Config, x: Id, j: nat)
    requires Valid(c.p) && j < |c.p.insts| && x in UnusedInputs(c, |c.p.inputs|)
    ensures x !in WorkingSet(c.p.insts[j])
  {
    UnusedInputsAre(c, |c.p.inputs|);
    assert c.p.inputs[..|c.p.inputs|] == c.p.inputs;
    NoLaterUse(c.p, x, 0, j);
    NotRedefined(c.p, x, 0, j);
  }

  lemma {:induction false} DiesAtOneInstruction(c: Config, x: Id, k: nat, j: nat)
    requires Valid(c.p) && DiesAt(c, x, k) && DiesAt(c, x, j)
    ensures k == j
  {
    if x in UnusedInputs(c, |c.p.inputs|) {
      UnusedInputsAreIdle(c, x, k);
      UnusedInputsAreIdle(c, x, j);
    } else if k < j {
      DiesOnce(c, x, k, j);
    } else if j < k {
      DiesOnce(c, x, j, k);
    }
  }

  /** Nothing reads or defines an id after it dies. */
  lemma {:induction false} DeadForGood(c: Config, x: Id, k: nat, j: nat)
    requires Valid(c.p) && DiesAt(c, x, k) && k < j < |c.p.insts|
    ensures x !in WorkingSet(c.p.insts[j])
  {
    DiesOnce(c, x, k, j);
  }

  // ----- the theorems -----

  ghost function Epilogue(c: Config, j: nat): seq<Id> {
    if j + 1 == |c.p.insts| then UnusedInputs(c, |c.p.inputs|) else []
  }

  /** A finished plan is its run's actions, with the epilogue added to the last free list. */
  lemma {:induction false} PlanActions(c: Config, j: nat)
    requires PlanOf(c).Some? && j < |c.p.insts|
    ensures Run(c, |c.p.insts|).Some?
    ensures var t := Trace(c, |c.p.insts|);
      && IsRun(c, t) && |t| == |c.p.insts| + 1
      && |PlanOf(c).value.actions| == |c.p.insts| == |t[|c.p.insts|].actions|
      && PlanOf(c).value.actions[j] ==
           t[|c.p.insts|].actions[j].(free := t[|c.p.insts|].actions[j].free + Epilogue(c, j))
  {
    hide Step; hide UnusedInputs;
    var n := |c.p.insts|;
    TraceIsRun(c, n);
    var t := Trace(c, n);
    ActionsGrow(c, t, n, n);
    hide Trace; hide Run; hide IsRun;
    assert PlanOf(c).value.actions == WithEpilogue(c, t[n].actions);
    if j + 1 < n {
      assert t[n].actions[j].free + [] == t[n].actions[j].free;
    }
  }

  lemma {:induction false} OneActionEach(c: Config)
    requires PlanOf(c).Some?
    ensures |PlanOf(c).value.actions| == |c.p.insts|
  {
    if c.p.insts == [] {
      hide Step; hide UnusedInputs;
      TraceIsRun(c, 0);
    } else {
      PlanActions(c, 0);
    }
  }

  /** The free lists of a plan, exactly. */
  lemma {:induction false} FreeLists(c: Config, j: nat)
    requires Valid(c.p) && PlanOf(c).Some? && j < |c.p.insts|
    ensures |PlanOf(c).value.actions| == |c.p.insts|
    ensures forall x :: x in PlanOf(c).value.actions[j].free <==> DiesAt(c, x, j)
    ensures NoDup(PlanOf(c).value.actions[j].free)
  {
    hide Run; hide Step; hide MakeRoom; hide Missing; hide Trace; hide Dead; hide UnusedInputs; hide Valid;
    hide PlanOf; hide IsRun; hide WorkingSet; hide Sorted;
    PlanActions(c, j);
    PlannedActions(c, Trace(c, |c.p.insts|), j);
    SortedEnumerates(Dead(c, j));
    UnusedInputsAre(c, |c.p.inputs|);
    var front := Sorted(Dead(c, j));
    assert PlanOf(c).value.actions[j].free == front + Epilogue(c, j);
    forall x ensures x in front <==> x in Dead(c, j) {
      assert x in front <==> x in SetOf(front);
    }
    forall x | x in front ensures x !in Epilogue(c, j) {
      DeadInWorkingSet(c, j);
      if x in UnusedInputs(c, |c.p.inputs|) {
        UnusedInputsAreIdle(c, x, j);
      }
    }
    NoDupAppend(front, Epilogue(c, j));
  }

  lemma DeadInWorkingSet(c: Config, j: nat)
    requires j < |c.p.insts|
    ensures Dead(c, j) <= WorkingSet(c.p.insts[j])
  {
  }

  /** Every id the plan owns is in exactly one free list, once, no earlier than its definition and its
      last use, and no later action names it. */
  lemma {:induction false} FreedExactlyOnce(c: Config, x: Id) returns (k: nat)
    requires Valid(c.p) && PlanOf(c).Some? && |c.p.insts| > 0
    requires x in Defs(c.p) && x !in c.pinned
    ensures k < |c.p.insts| == |PlanOf(c).value.actions|
    ensures forall j :: 0 <= j < |c.p.insts| ==> (x in PlanOf(c).value.actions[j].free <==> j == k)
    ensures NoDup(PlanOf(c).value.actions[k].free)
    ensures forall j :: k < j < |c.p.insts| ==> x !in WorkingSet(c.p.insts[j])
    ensures forall j :: k < j < |c.p.insts| ==> !Names(PlanOf(c).value.actions[j], x)
    ensures x in WorkingSet(c.p.insts[k]) || (k == |c.p.insts| - 1 && x in c.p.inputs)
  {
    k := EveryIdDies(c, x);
    FreeLists(c, k);
    forall j | 0 <= j < |c.p.insts|
      ensures x in PlanOf(c).value.actions[j].free <==> j == k
      ensures k < j ==> x !in WorkingSet(c.p.insts[j])
    {
      FreeLists(c, j);
      if DiesAt(c, x, j) {
        DiesAtOneInstruction(c, x, k, j);
      }
      if k < j {
        DeadForGood(c, x, k, j);
      }
    }
    forall j | k < j < |c.p.insts| ensures !Names(PlanOf(c).value.actions[j], x) {
      NotNamedAfterDeath(c, x, k, j);
    }
    DeadInWorkingSet(c, k);
    UnusedInputsAre(c, |c.p.inputs|);
  }

  lemma {:induction false} NotNamedAfterDeath(c: Config, x: Id, k: nat, j: nat)
    requires Valid(c.p) && PlanOf(c).Some? && DiesAt(c, x, k) && k < j < |c.p.insts|
    ensures |PlanOf(c).value.actions| == |c.p.insts| && !Names(PlanOf(c).value.actions[j], x)
  {
    hide Run; hide Step; hide MakeRoom; hide Missing; hide Trace; hide Dead; hide UnusedInputs; hide Valid;
    hide PlanOf; hide IsRun; hide WorkingSet; hide Device;
    var n := |c.p.insts|;
    PlanActions(c, j);
    var t := Trace(c, n);
    DeviceFlow(c, t, k);
    forall m | k < m < n ensures x !in WorkingSet(c.p.insts[m]) {
      DeadForGood(c, x, k, m);
    }
    StaysGone(c, t, x, k + 1, j);
    NamesAreResident(c, t, x, j);
    FreeLists(c, j);
    if DiesAt(c, x, j) {
      DiesAtOneInstruction(c, x, k, j);
    }
  }

  /** Pinned ids, and ids the program does not define, are in no free list. */
  lemma {:induction false} PinnedNeverFreed(c: Config, x: Id, j: nat)
    requires Valid(c.p) && PlanOf(c).Some? && j < |c.p.insts|
    requires x in c.pinned || x !in Defs(c.p)
    ensures |PlanOf(c).value.actions| == |c.p.insts| && x !in PlanOf(c).value.actions[j].free
  {
    FreeLists(c, j);
    UnusedInputsAre(c, |c.p.inputs|);
    DefinedBeforeMonotone(c.p, j + 1, |c.p.insts|);
    DefinedBeforeGrows(c.p, j);
    hide PlanOf;
    assert x !in Dead(c, j);
  }
}
