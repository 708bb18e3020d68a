/** Which plans exist, and what every plan keeps: residency, budget and conservation. */
module Residency {
  import opened Fhn
  import opened Sets
  import opened MovementPlan

  // ----- sums of costs -----

  lemma {:induction false} SumAdd(u: Units, s: set<Id>, x: Id)
    requires x !in s
    ensures SumCost(u, s + {x}) == SumCost(u, s) + Cost(u, x)
    decreases |s|
  {
    var t := s + {x};
    var m := Min(t);
    if m == x {
      assert t - {m} == s;
    } else {
      assert t - {m} == (s - {m}) + {x};
      SumAdd(u, s - {m}, x);
      assert m == Min(s);
    }
  }

  lemma {:induction false} SumUnion(u: Units, a: set<Id>, b: set<Id>)
    requires a !! b
    ensures SumCost(u, a + b) == SumCost(u, a) + SumCost(u, b)
    decreases |b|
  {
    if b == {} {
      assert a + b == a;
    } else {
      var x :| x in b;
      SumUnion(u, a, b - {x});
      SumAdd(u, b - {x}, x);
      SumAdd(u, a + (b - {x}), x);
      assert a + (b - {x}) + {x} == a + b;
      assert b - {x} + {x} == b;
    }
  }

  lemma {:induction false} SumSplit(u: Units, a: set<Id>, b: set<Id>)
    requires a <= b
    ensures SumCost(u, b) == SumCost(u, a) + SumCost(u, b - a)
  {
    SumUnion(u, a, b - a);
    assert a + (b - a) == b;
  }

  lemma {:induction false} SumSlots(s: set<Id>)
    ensures SumCost(Slots, s) == |s|
  {
    if s != {} {
      SumSlots(s - {Min(s)});
    }
  }

  // ----- the eviction loop -----

  /** The eviction loop names distinct residents outside the working set. */
  lemma {:induction false} EvictionsAreResidents(
      c: Config, i: nat, lastTouch: map<Id, int>, resident: set<Id>, incoming: nat)
    requires i < |c.p.insts|
    requires Evictions(c, i, lastTouch, resident, incoming).Some?
    ensures NoDup(Evictions(c, i, lastTouch, resident, incoming).value)
    ensures SetOf(Evictions(c, i, lastTouch, resident, incoming).value) <= resident - WorkingSet(c.p.insts[i])
    decreases |resident|
  {
    if SumCost(c.units, resident) + incoming > c.budget {
      var v := Victim(c, i, lastTouch, resident - WorkingSet(c.p.insts[i]));
      EvictionsAreResidents(c, i, lastTouch, resident - {v}, incoming);
      var rest := Evictions(c, i, lastTouch, resident - {v}, incoming).value;
      SetOfCons(v, rest);
      assert v !in SetOf(rest);
    }
  }

  lemma EvictionsStep(c: Config, i: nat, lastTouch: map<Id, int>, resident: set<Id>, incoming: nat)
    returns (v: Id, rest: seq<Id>)
    requires i < |c.p.insts|
    requires Evictions(c, i, lastTouch, resident, incoming).Some?
    requires SumCost(c.units, resident) + incoming > c.budget
    ensures v in resident - WorkingSet(c.p.insts[i])
    ensures Evictions(c, i, lastTouch, resident - {v}, incoming) == Some(rest)
    ensures Evictions(c, i, lastTouch, resident, incoming) == Some([v] + rest)
    ensures resident - SetOf([v] + rest) == resident - {v} - SetOf(rest)
  {
    v := Victim(c, i, lastTouch, resident - WorkingSet(c.p.insts[i]));
    rest := Evictions(c, i, lastTouch, resident - {v}, incoming).value;
    SetOfCons(v, rest);
  }

  lemma EvictionsStop(c: Config, i: nat, lastTouch: map<Id, int>, resident: set<Id>, incoming: nat)
    requires i < |c.p.insts| && SumCost(c.units, resident) + incoming <= c.budget
    ensures Evictions(c, i, lastTouch, resident, incoming) == Some([]) && resident - SetOf<Id>([]) == resident
  {
    hide SumCost;
  }

  /** It stops as soon as the incoming units fit: with the last victim still there they would not. */
  lemma {:induction false} EvictionsFit(
      c: Config, i: nat, lastTouch: map<Id, int>, resident: set<Id>, incoming: nat)
    requires i < |c.p.insts|
    requires Evictions(c, i, lastTouch, resident, incoming).Some?
    ensures var victims := Evictions(c, i, lastTouch, resident, incoming).value;
      var kept := SumCost(c.units, resident - SetOf(victims));
      && kept + incoming <= c.budget
      && (victims != [] ==> kept + Cost(c.units, victims[|victims| - 1]) + incoming > c.budget)
    decreases |resident|
  {
    hide SumCost; hide IsVictim; hide WorkingSet; hide Evictions; hide SetOf;
    if SumCost(c.units, resident) + incoming <= c.budget {
      EvictionsStop(c, i, lastTouch, resident, incoming);
    } else {
      var v, rest := EvictionsStep(c, i, lastTouch, resident, incoming);
      EvictionsFit(c, i, lastTouch, resident - {v}, incoming);
      if rest == [] {
        assert resident - {v} - SetOf<Id>([]) == resident - {v} by { SetOfNothing(); }
        SumAdd(c.units, resident - {v}, v);
        assert resident - {v} + {v} == resident;
      }
    }
  }

  /** Every victim is preferred to every survivor outside the working set. */
  lemma {:induction false} EvictionsPrefer(
      c: Config, i: nat, lastTouch: map<Id, int>, resident: set<Id>, incoming: nat, v: Id, x: Id)
    requires i < |c.p.insts|
    requires Evictions(c, i, lastTouch, resident, incoming).Some?
    requires v in Evictions(c, i, lastTouch, resident, incoming).value
    requires x in resident - WorkingSet(c.p.insts[i])
    requires x !in Evictions(c, i, lastTouch, resident, incoming).value
    ensures Before(c, i, lastTouch, v, x)
    decreases |resident|
  {
    if SumCost(c.units, resident) + incoming > c.budget {
      var first := Victim(c, i, lastTouch, resident - WorkingSet(c.p.insts[i]));
      var rest := Evictions(c, i, lastTouch, resident - {first}, incoming).value;
      assert Evictions(c, i, lastTouch, resident, incoming).value == [first] + rest;
      assert first in [first] + rest;
      if v != first {
        assert v in rest;
        EvictionsPrefer(c, i, lastTouch, resident - {first}, incoming, v, x);
      }
    }
  }

  /** The loop finds room whenever the residents it may not evict leave enough. */
  lemma {:induction false} EvictionsExist(
      c: Config, i: nat, lastTouch: map<Id, int>, resident: set<Id>, incoming: nat)
    requires i < |c.p.insts|
    requires SumCost(c.units, resident * WorkingSet(c.p.insts[i])) + incoming <= c.budget
    ensures Evictions(c, i, lastTouch, resident, incoming).Some?
    decreases |resident|
  {
    var w := WorkingSet(c.p.insts[i]);
    if SumCost(c.units, resident) + incoming > c.budget {
      assert resident - w == {} ==> resident * w == resident;
      if resident - w != {} {
        var v := Victim(c, i, lastTouch, resident - w);
        assert (resident - {v}) * w == resident * w;
        EvictionsExist(c, i, lastTouch, resident - {v}, incoming);
      }
    }
  }

  // ----- the invariant of a run -----

  /** Every resident is defined; in a valid program nothing resident is dead unless it is pinned. */
  ghost predicate StateOk(c: Config, i: nat, s: State)
    requires i <= |c.p.insts|
  {
    && s.resident <= DefinedBefore(c.p, i)
    && (c.budget > 0 ==> SumCost(c.units, s.resident) <= c.budget)
  }

  /** Releases made by the first `i` instructions, the epilogue not counted. */
  ghost function FreesBefore(c: Config, i: nat): nat
    requires i <= |c.p.insts|
  {
    if i == 0 then 0 else FreesBefore(c, i - 1) + |Dead(c, i - 1)|
  }

  /** The working set is what is already there plus what is brought in. */
  lemma {:induction false} WorkingSetSplits(c: Config, i: nat, resident: set<Id>)
    requires i < |c.p.insts|
    requires c.p.insts[i].resultId !in resident
    requires Valid(c.p)
    ensures SumCost(c.units, WorkingSet(c.p.insts[i])) ==
      SumCost(c.units, resident * WorkingSet(c.p.insts[i])) + Incoming(c, i, resident)
  {
    var r := c.p.insts[i].resultId;
    var w := WorkingSet(c.p.insts[i]);
    var missing := Missing(c, i, resident);
    assert r !in OperandIds(c.p.insts[i]);
    SumSplit(c.units, resident * w, w);
    assert w - resident * w == missing + {r};
    SumAdd(c.units, missing, r);
  }

  /** What is resident at dispatch costs what survived plus what came in. */
  lemma {:induction false} DispatchCost(c: Config, i: nat, s: State, victims: seq<Id>)
    requires i < |c.p.insts| && Valid(c.p)
    requires s.resident <= DefinedBefore(c.p, i)
    requires SetOf(victims) <= s.resident - WorkingSet(c.p.insts[i])
    ensures SumCost(c.units, AtDispatch(c, i, s, victims)) ==
      SumCost(c.units, s.resident - SetOf(victims)) + Incoming(c, i, s.resident)
  {
    var r := c.p.insts[i].resultId;
    var kept := s.resident - SetOf(victims);
    var missing := Missing(c, i, s.resident);
    assert r !in OperandIds(c.p.insts[i]);
    assert AtDispatch(c, i, s, victims) == kept + missing + {r};
    SumUnion(c.units, kept, missing);
    SumAdd(c.units, kept + missing, r);
  }

  /** The residents at dispatch, counted. */
  lemma {:induction false} DispatchCount(c: Config, i: nat, s: State, victims: seq<Id>)
    requires i < |c.p.insts| && Valid(c.p)
    requires s.resident <= DefinedBefore(c.p, i)
    requires NoDup(victims) && SetOf(victims) <= s.resident - WorkingSet(c.p.insts[i])
    ensures |AtDispatch(c, i, s, victims)| + |victims| == |s.resident| + 1 + |Missing(c, i, s.resident)|
  {
    var r := c.p.insts[i].resultId;
    assert r !in OperandIds(c.p.insts[i]);
    assert AtDispatch(c, i, s, victims) == s.resident - SetOf(victims) + Missing(c, i, s.resident) + {r};
    assert s.resident == SetOf(victims) + (s.resident - SetOf(victims));
    SetOfSize(victims);
  }

  lemma {:induction false} SetOfSize<T>(q: seq<T>)
    requires NoDup(q)
    ensures |SetOf(q)| == |q|
  {
    if q != [] {
      var front := q[..|q| - 1];
      SetOfSize(front);
      assert q == front + [q[|q| - 1]];
      SetOfSnoc(front, q[|q| - 1]);
      assert q[|q| - 1] !in front;
    }
  }

  /** The victims a step picks, whatever the budget. */
  lemma {:induction false} RoomIsMade(c: Config, i: nat, s: State)
    requires i < |c.p.insts|
    requires MakeRoom(c, i, s).Some?
    ensures NoDup(MakeRoom(c, i, s).value)
    ensures SetOf(MakeRoom(c, i, s).value) <= s.resident - WorkingSet(c.p.insts[i])
    ensures c.budget > 0 ==>
      SumCost(c.units, s.resident - SetOf(MakeRoom(c, i, s).value)) + Incoming(c, i, s.resident) <= c.budget
  {
    if c.budget > 0 {
      EvictionsAreResidents(c, i, s.lastTouch, s.resident, Incoming(c, i, s.resident));
      EvictionsFit(c, i, s.lastTouch, s.resident, Incoming(c, i, s.resident));
    }
  }

  lemma {:induction false} StepStaysDefined(c: Config, i: nat, s: State)
    requires i < |c.p.insts| && Valid(c.p)
    requires s.resident <= DefinedBefore(c.p, i) && Step(c, i, s).Some?
    ensures Step(c, i, s).value.resident <= DefinedBefore(c.p, i + 1)
  {
    hide Evictions; hide SumCost; hide NextUse;
    DefinedBeforeGrows(c.p, i);
  }

  lemma {:induction false} StepStaysInBudget(c: Config, i: nat, s: State)
    requires i < |c.p.insts| && Valid(c.p) && c.budget > 0
    requires s.resident <= DefinedBefore(c.p, i) && Step(c, i, s).Some?
    ensures SumCost(c.units, AtDispatch(c, i, s, MakeRoom(c, i, s).value)) <= c.budget
    ensures SumCost(c.units, Step(c, i, s).value.resident) <= c.budget
  {
    hide Evictions; hide SumCost; hide NextUse;
    var victims := MakeRoom(c, i, s).value;
    RoomIsMade(c, i, s);
    DispatchCost(c, i, s, victims);
    SumSplit(c.units, AtDispatch(c, i, s, victims) - Dead(c, i), AtDispatch(c, i, s, victims));
  }

  lemma {:induction false} StepConserves(c: Config, i: nat, s: State)
    requires i < |c.p.insts| && Valid(c.p)
    requires s.resident <= DefinedBefore(c.p, i) && Step(c, i, s).Some?
    ensures var next := Step(c, i, s).value;
      |next.resident| + (next.stats.evicts - s.stats.evicts) + |Dead(c, i)| ==
        |s.resident| + 1 + (next.stats.prefetches - s.stats.prefetches)
  {
    hide Evictions; hide SumCost; hide NextUse;
    var victims := MakeRoom(c, i, s).value;
    RoomIsMade(c, i, s);
    DispatchCount(c, i, s, victims);
    var device := AtDispatch(c, i, s, victims);
    assert Dead(c, i) <= device;
    assert |device - Dead(c, i)| == |device| - |Dead(c, i)|;
  }

  lemma {:induction false} StepKeepsOk(c: Config, i: nat, s: State)
    requires i < |c.p.insts| && Valid(c.p)
    requires StateOk(c, i, s) && Step(c, i, s).Some?
    ensures StateOk(c, i + 1, Step(c, i, s).value)
  {
    hide MakeRoom; hide AtDispatch; hide Dead;
    StepStaysDefined(c, i, s);
    StepConserves(c, i, s);
    if c.budget > 0 {
      StepStaysInBudget(c, i, s);
    }
  }

  /** What a step changes, in one place. */
  lemma StepEffect(c: Config, i: nat, s: State)
    requires i < |c.p.insts| && Step(c, i, s).Some?
    ensures MakeRoom(c, i, s).Some?
    ensures var victims := MakeRoom(c, i, s).value;
      var next := Step(c, i, s).value;
      && next.resident == AtDispatch(c, i, s, victims) - Dead(c, i)
      && next.stats == StatsAfter(c, i, s, victims)
      && next.lastTouch == Touched(s.lastTouch, WorkingSet(c.p.insts[i]), i)
  {
  }

  // ----- runs -----

  ghost predicate Linked(c: Config, t: seq<State>, i: nat)
    requires i < |c.p.insts| && i + 1 < |t|
  {
    Step(c, i, t[i]) == Some(t[i + 1])
  }

  /** `t` is the sequence of states the planner goes through, up to some instruction. */
  ghost predicate IsRun(c: Config, t: seq<State>) {
    && 1 <= |t| <= |c.p.insts| + 1
    && t[0] == Start
    && forall i {:trigger Linked(c, t, i)} :: 0 <= i < |t| - 1 ==> Linked(c, t, i)
  }

  ghost function Trace(c: Config, i: nat): seq<State>
    requires i <= |c.p.insts| && Run(c, i).Some?
  {
    if i == 0 then [Start] else Trace(c, i - 1) + [Run(c, i).value]
  }

  lemma {:induction false} TraceIsRun(c: Config, i: nat)
    requires i <= |c.p.insts| && Run(c, i).Some?
    ensures |Trace(c, i)| == i + 1 && IsRun(c, Trace(c, i)) && Trace(c, i)[i] == Run(c, i).value
  {
    hide Step;
    if i > 0 {
      TraceIsRun(c, i - 1);
      var t, u := Trace(c, i - 1), Trace(c, i);
      assert Step(c, i - 1, t[i - 1]) == Some(u[i]);
      forall k | 0 <= k < |u| - 1 ensures Linked(c, u, k) {
        if k < i - 1 {
          assert Linked(c, t, k);
        }
      }
    }
  }

  lemma {:induction false} RunIsTrace(c: Config, t: seq<State>, i: nat)
    requires IsRun(c, t) && i < |t|
    ensures Run(c, i) == Some(t[i])
  {
    hide Step;
    if i > 0 {
      RunIsTrace(c, t, i - 1);
      assert Linked(c, t, i - 1);
    }
  }

  lemma {:induction false} RunKeepsOk(c: Config, t: seq<State>, i: nat)
    requires Valid(c.p) && IsRun(c, t) && i < |t|
    ensures StateOk(c, i, t[i])
  {
    if i > 0 {
      RunKeepsOk(c, t, i - 1);
      assert Linked(c, t, i - 1);
      StepKeepsOk(c, i - 1, t[i - 1]);
    }
  }

  /** Consecutive states of a run. */
  lemma {:induction false} RunLink(c: Config, t: seq<State>, i: nat)
    requires Valid(c.p) && IsRun(c, t) && i + 1 < |t|
    ensures i < |c.p.insts| && Step(c, i, t[i]) == Some(t[i + 1])
    ensures t[i].resident <= DefinedBefore(c.p, i)
  {
    hide Step;
    RunKeepsOk(c, t, i);
    assert Linked(c, t, i);
  }

  lemma StepActions(c: Config, i: nat, s: State)
    requires i < |c.p.insts| && Step(c, i, s).Some?
    ensures |Step(c, i, s).value.actions| == |s.actions| + 1
    ensures Step(c, i, s).value.actions[..|s.actions|] == s.actions
  {
  }

  /** Actions, once planned, are final. */
  lemma {:induction false} ActionsGrow(c: Config, t: seq<State>, k: nat, i: nat)
    requires IsRun(c, t) && k <= i < |t|
    ensures |t[k].actions| == k && |t[i].actions| == i && t[i].actions[..k] == t[k].actions
    decreases i
  {
    hide Step;
    if i > 0 {
      ActionsGrow(c, t, if k < i then k else i - 1, i - 1);
      assert Linked(c, t, i - 1);
      StepActions(c, i - 1, t[i - 1]);
    }
  }

  // ----- the properties of a plan -----

  /** Every single working set fits the budget. */
  ghost predicate Fits(c: Config) {
    c.budget > 0 ==> forall i :: 0 <= i < |c.p.insts| ==> SumCost(c.units, WorkingSet(c.p.insts[i])) <= c.budget
  }

  lemma {:induction false} StepExists(c: Config, i: nat, s: State)
    requires i < |c.p.insts| && Valid(c.p) && StateOk(c, i, s)
    requires c.budget > 0 ==> SumCost(c.units, WorkingSet(c.p.insts[i])) <= c.budget
    ensures Step(c, i, s).Some?
  {
    if c.budget > 0 {
      WorkingSetSplits(c, i, s.resident);
      EvictionsExist(c, i, s.lastTouch, s.resident, Incoming(c, i, s.resident));
    }
  }

  lemma {:induction false} RunExists(c: Config, i: nat)
    requires Valid(c.p) && Fits(c) && i <= |c.p.insts|
    ensures Run(c, i).Some?
  {
    hide Step;
    hide MakeRoom;
    if i > 0 {
      RunExists(c, i - 1);
      TraceIsRun(c, i - 1);
      RunKeepsOk(c, Trace(c, i - 1), i - 1);
      StepExists(c, i - 1, Run(c, i - 1).value);
    }
  }

  /** A valid program has a plan exactly when every single working set fits: the eviction loop
      never runs out of victims. */
  lemma {:induction false} PlanExistsIff(c: Config)
    requires Valid(c.p)
    ensures PlanOf(c).Some? <==> Fits(c)
  {
    if Fits(c) {
      RunExists(c, |c.p.insts|);
    }
    if Run(c, |c.p.insts|).Some? {
      TraceIsRun(c, |c.p.insts|);
      var t := Trace(c, |c.p.insts|);
      forall i | c.budget > 0 && 0 <= i < |c.p.insts|
        ensures SumCost(c.units, WorkingSet(c.p.insts[i])) <= c.budget
      {
        assert Linked(c, t, i);
      }
    }
  }

  /** The device contents while instruction `i` of a run executes. */
  ghost function Device(c: Config, t: seq<State>, i: nat): set<Id>
    requires IsRun(c, t) && i < |t| - 1
  {
    assert Linked(c, t, i);
    AtDispatch(c, i, t[i], MakeRoom(c, i, t[i]).value)
  }

  /** One link of a run, in full. */
  lemma {:induction false} RunEffect(c: Config, t: seq<State>, i: nat)
    requires Valid(c.p) && IsRun(c, t) && i < |t| - 1
    ensures i < |c.p.insts| && Step(c, i, t[i]) == Some(t[i + 1])
    ensures t[i].resident <= DefinedBefore(c.p, i)
    ensures MakeRoom(c, i, t[i]).Some?
    ensures var victims := MakeRoom(c, i, t[i]).value;
      && Device(c, t, i) == AtDispatch(c, i, t[i], victims)
      && t[i + 1].stats == StatsAfter(c, i, t[i], victims)
      && t[i + 1].resident == Device(c, t, i) - Dead(c, i)
  {
    hide Step; hide MakeRoom; hide AtDispatch; hide StatsAfter; hide Dead;
    RunLink(c, t, i);
    StepEffect(c, i, t[i]);
  }

  /** How the actions of instruction `i` take the residents `before` to `device` and then to `after`. */
  ghost predicate Moves(c: Config, i: nat, before: set<Id>, act: Actions, device: set<Id>, after: set<Id>)
    requires i < |c.p.insts|
  {
    var inst := c.p.insts[i];
    && SetOf(act.evict) <= before - WorkingSet(inst) && NoDup(act.evict)
    && act.alloc == [inst.resultId] && inst.resultId !in before
    && SetOf(act.prefetch) == OperandIds(inst) - before && Ascending(act.prefetch)
    && device == before - SetOf(act.evict) + SetOf(act.alloc) + SetOf(act.prefetch)
    && WorkingSet(inst) <= device
    && SetOf(act.free) <= WorkingSet(inst) && Ascending(act.free)
    && after == device - SetOf(act.free)
  }

  /** The residents at dispatch: survivors, the result and the operands brought in. */
  lemma {:induction false} DispatchParts(c: Config, i: nat, s: State, victims: seq<Id>)
    requires i < |c.p.insts|
    requires SetOf(victims) <= s.resident - WorkingSet(c.p.insts[i])
    ensures AtDispatch(c, i, s, victims) ==
      s.resident - SetOf(victims) + {c.p.insts[i].resultId} + Missing(c, i, s.resident)
    ensures WorkingSet(c.p.insts[i]) <= AtDispatch(c, i, s, victims)
  {
  }

  lemma {:induction false} ActionsMove(
      c: Config, i: nat, before: set<Id>, victims: seq<Id>, dead: set<Id>, device: set<Id>)
    requires i < |c.p.insts|
    requires SetOf(victims) <= before - WorkingSet(c.p.insts[i]) && NoDup(victims)
    requires c.p.insts[i].resultId !in before && dead <= WorkingSet(c.p.insts[i]) <= device
    requires device == before - SetOf(victims) + {c.p.insts[i].resultId} + Missing(c, i, before)
    ensures Moves(c, i, before,
      Actions(victims, [c.p.insts[i].resultId], Sorted(Missing(c, i, before)), Sorted(dead)), device, device - dead)
  {
    hide Ascending; hide NoDup; hide WorkingSet; hide OperandIds; hide Sorted;
    SortedEnumerates(Missing(c, i, before));
    SortedEnumerates(dead);
    assert SetOf([c.p.insts[i].resultId]) == {c.p.insts[i].resultId};
    hide SetOf;
  }

  lemma {:induction false} StepMoves(c: Config, i: nat, s: State)
    requires Valid(c.p) && i < |c.p.insts| && s.resident <= DefinedBefore(c.p, i)
    requires Step(c, i, s).Some?
    ensures var next := Step(c, i, s).value;
      && |next.actions| == |s.actions| + 1
      && Moves(c, i, s.resident, next.actions[|s.actions|], AtDispatch(c, i, s, MakeRoom(c, i, s).value), next.resident)
  {
    hide Moves; hide Evictions; hide SumCost; hide NextUse;
    var victims := MakeRoom(c, i, s).value;
    RoomIsMade(c, i, s);
    DispatchParts(c, i, s, victims);
    ActionsMove(c, i, s.resident, victims, Dead(c, i), AtDispatch(c, i, s, victims));
  }

  /** Before every dispatch the working set is resident and the device is within budget; evict names
      only residents outside the working set, prefetch only operands that are not resident, and the
      device holds exactly what came in and did not leave. */
  lemma {:induction false} EveryDispatchIsResident(c: Config, t: seq<State>, i: nat)
    requires Valid(c.p) && IsRun(c, t) && i < |t| - 1
    ensures |t[i + 1].actions| == i + 1
    ensures Moves(c, i, t[i].resident, t[i + 1].actions[i], Device(c, t, i), t[i + 1].resident)
    ensures Device(c, t, i) <= DefinedBefore(c.p, i + 1)
    ensures c.budget > 0 ==> SumCost(c.units, Device(c, t, i)) <= c.budget
  {
    assert Linked(c, t, i);
    ActionsGrow(c, t, i, i);
    RunKeepsOk(c, t, i);
    StepMoves(c, i, t[i]);
    RoomIsMade(c, i, t[i]);
    DispatchCost(c, i, t[i], MakeRoom(c, i, t[i]).value);
    DefinedBeforeGrows(c.p, i);
  }

  /** The device while instruction `i` runs, and what is left of it afterwards. */
  lemma {:induction false} DeviceFlow(c: Config, t: seq<State>, i: nat)
    requires Valid(c.p) && IsRun(c, t) && i < |t| - 1
    ensures |t[i + 1].actions| == i + 1
    ensures Device(c, t, i) ==
      t[i].resident - SetOf(t[i + 1].actions[i].evict) + {c.p.insts[i].resultId} + Missing(c, i, t[i].resident)
    ensures c.p.insts[i].resultId !in OperandIds(c.p.insts[i])
    ensures t[i + 1].resident == Device(c, t, i) - Dead(c, i)
  {
    hide Step; hide MakeRoom; hide AtDispatch; hide StatsAfter; hide Dead; hide OperandIds; hide SetOf;
    hide DefinedBefore;
    RunLink(c, t, i);
    StepEffect(c, i, t[i]);
    EveryDispatchIsResident(c, t, i);
    SetOfOne(c.p.insts[i].resultId);
  }

  /** Residents are conserved: allocations and transfers in, less evictions and releases. */
  lemma {:induction false} ResidentsConserved(c: Config, t: seq<State>, i: nat)
    requires Valid(c.p) && IsRun(c, t) && i < |t|
    ensures |t[i].resident| == i + t[i].stats.prefetches - t[i].stats.evicts - FreesBefore(c, i)
    ensures t[i].stats.allocs == i
  {
    hide Step; hide Dead; hide Linked; hide Valid;
    if i > 0 {
      ResidentsConserved(c, t, i - 1);
      RunLink(c, t, i - 1);
      StepConserves(c, i - 1, t[i - 1]);
      StepCountsAllocation(c, i - 1, t[i - 1]);
    }
  }

  lemma StepCountsAllocation(c: Config, i: nat, s: State)
    requires i < |c.p.insts| && Step(c, i, s).Some?
    ensures Step(c, i, s).value.stats.allocs == s.stats.allocs + 1
  {
    hide MakeRoom; hide AtDispatch; hide Dead; hide Missing;
  }
}
