/** The movement planner as it runs: loops over the program that update the resident set, the unit
    total, the touch positions and the action lists. Each loop is proved to compute its specification. */
module Analyzer {
  import opened Fhn
  import opened Sets
  import opened MovementPlan
  import opened Residency
  import opened LevelModel

  // ----- what the planner returns -----

  ghost function Analysis(p: Program, pinned: set<Id>, budget: nat, policy: Policy, model: Option<Model>): Option<Plan>
  {
    if !Valid(p) then None
    else
      match UnitsOf(model, p)
      case None => None
      case Some(units) => PlanOf(Config(p, pinned, budget, policy, units))
  }

  /** Exact feasibility: a plan is returned if and only if the definitions are nonzero and distinct, every
      operand is defined earlier, the level trace exists (in byte mode) and every single working set
      fits a nonzero budget. */
  lemma {:induction false} PlannedExactlyWhenFeasible(
      p: Program, pinned: set<Id>, budget: nat, policy: Policy, model: Option<Model>)
    ensures Analysis(p, pinned, budget, policy, model).Some? <==>
      && Valid(p)
      && (model.Some? ==>
            0 <= model.value.freshLevel < |model.value.bytesByLevel| && 0 !in model.value.bytesByLevel &&
            exists levels :: IsLevelTrace(model.value, p, levels))
      && (match UnitsOf(model, p)
          case None => true
          case Some(units) => budget > 0 ==>
            forall i :: 0 <= i < |p.insts| ==> SumCost(units, WorkingSet(p.insts[i])) <= budget)
  {
    if Valid(p) {
      if model.Some? {
        UnitsExistIff(model.value, p);
      }
      hide IsLevelTrace; hide PlanOf; hide Valid; hide WorkingSet; hide SumCost;
      if UnitsOf(model, p).Some? {
        PlanExistsIff(Config(p, pinned, budget, policy, UnitsOf(model, p).value));
      }
    }
  }

  // ----- definitions -----

  ghost predicate DefsOk(p: Program, inputs: nat, results: nat)
    requires inputs <= |p.inputs| && results <= |p.insts|
  {
    && (forall k :: 0 <= k < inputs ==> p.inputs[k] != 0)
    && (forall k, l :: 0 <= k < l < inputs ==> p.inputs[k] != p.inputs[l])
    && (forall i :: 0 <= i < results ==> p.insts[i].resultId != 0 && p.insts[i].resultId !in DefinedBefore(p, i))
  }

  /** Where each id is defined: -1 for an input, else its instruction. */
  ghost predicate DefPositions(p: Program, inputs: nat, results: nat, defPos: map<Id, int>)
    requires inputs <= |p.inputs| && results <= |p.insts|
  {
    && (forall x :: x in defPos <==>
          (exists k :: 0 <= k < inputs && p.inputs[k] == x) ||
          (exists i :: 0 <= i < results && p.insts[i].resultId == x))
    && (forall x :: x in defPos ==>
          if exists k :: 0 <= k < inputs && p.inputs[k] == x then defPos[x] == -1
          else 0 <= defPos[x] < results && p.insts[defPos[x]].resultId == x)
  }

  lemma DefInput(p: Program, k: nat, defPos: map<Id, int>)
    requires k < |p.inputs| && DefPositions(p, k, 0, defPos)
    ensures p.inputs[k] in defPos <==> exists l :: 0 <= l < k && p.inputs[l] == p.inputs[k]
    ensures p.inputs[k] !in defPos ==> DefPositions(p, k + 1, 0, defPos[p.inputs[k] := -1])
  {
  }

  lemma NothingDefined(p: Program)
    ensures DefPositions(p, 0, 0, map[])
  {
  }

  lemma DefResult(p: Program, i: nat, defPos: map<Id, int>)
    requires i < |p.insts| && DefPositions(p, |p.inputs|, i, defPos)
    ensures p.insts[i].resultId in defPos <==> p.insts[i].resultId in DefinedBefore(p, i)
    ensures p.insts[i].resultId !in defPos ==>
      DefPositions(p, |p.inputs|, i + 1, defPos[p.insts[i].resultId := i])
  {
  }

  method CollectDefs(p: Program) returns (ok: bool, defPos: map<Id, int>)
    ensures ok <==> DefsOk(p, |p.inputs|, |p.insts|)
    ensures ok ==> DefPositions(p, |p.inputs|, |p.insts|, defPos)
  {
    hide DefPositions; hide DefinedBefore;
    defPos := map[];
    NothingDefined(p);
    for k := 0 to |p.inputs|
      invariant DefsOk(p, k, 0) && DefPositions(p, k, 0, defPos)
    {
      var id := p.inputs[k];
      DefInput(p, k, defPos);
      if id == 0 || id in defPos {
        return false, defPos;
      }
      defPos := defPos[id := -1];
    }
    for i := 0 to |p.insts|
      invariant DefsOk(p, |p.inputs|, i) && DefPositions(p, |p.inputs|, i, defPos)
    {
      var id := p.insts[i].resultId;
      DefResult(p, i, defPos);
      if id == 0 || id in defPos {
        return false, defPos;
      }
      defPos := defPos[id := i];
    }
    ok := true;
  }

  lemma {:induction false} ResultsDiffer(p: Program, i: nat, j: nat)
    requires DefsOk(p, |p.inputs|, |p.insts|) && i < |p.insts| && j < |p.insts|
    requires p.insts[i].resultId == p.insts[j].resultId
    ensures i == j
  {
    var x := p.insts[i].resultId;
    assert i < j ==> x in DefinedBefore(p, j);
    assert j < i ==> x in DefinedBefore(p, i);
  }

  lemma {:induction false} DefinedMeansEarlier(p: Program, defPos: map<Id, int>, x: Id, i: nat)
    requires DefsOk(p, |p.inputs|, |p.insts|) && DefPositions(p, |p.inputs|, |p.insts|, defPos)
    requires i <= |p.insts|
    ensures x in DefinedBefore(p, i) <==> x in defPos && defPos[x] < i
  {
    if k :| 0 <= k < |p.inputs| && p.inputs[k] == x {
    } else if j :| 0 <= j < |p.insts| && p.insts[j].resultId == x {
      ResultsDiffer(p, j, defPos[x]);
      forall l | 0 <= l < |p.insts| && p.insts[l].resultId == x ensures l == j {
        ResultsDiffer(p, j, l);
      }
    }
  }

  // ----- uses -----

  /** Instruction `k` reads `x` in one of its first `j` operand slots. */
  predicate Reads(p: Program, k: nat, j: nat, x: Id)
    requires k < |p.insts| && j <= 4
  {
    x != 0 && exists s :: 0 <= s < j && p.insts[k].operands[s] == x
  }

  lemma ReadsAll(p: Program, k: nat, x: Id)
    requires k < |p.insts|
    ensures Reads(p, k, 4, x) <==> x in OperandIds(p.insts[k])
  {
  }

  ghost predicate Ascends(v: seq<int>) {
    forall a, b :: 0 <= a < b < |v| ==> v[a] <= v[b]
  }

  /** `uses` lists, in order, the positions that read each id: all of the first `i` instructions and the
      first `j` operand slots of the next. */
  ghost predicate UsesUpTo(p: Program, uses: map<Id, seq<int>>, i: nat, j: nat)
    requires i <= |p.insts| && j <= 4
  {
    && (forall x :: x in uses ==> uses[x] != [] && Ascends(uses[x]))
    && (forall x, k :: x in uses && k in uses[x] ==>
          0 <= k < |p.insts| && ((k < i && Reads(p, k, 4, x)) || (k == i && Reads(p, k, j, x))))
    && (forall x, k :: 0 <= k < i && Reads(p, k, 4, x) ==> x in uses && k in uses[x])
    && (i < |p.insts| ==> forall x :: Reads(p, i, j, x) ==> x in uses && i in uses[x])
  }

  lemma {:induction false} UsesNext(p: Program, uses: map<Id, seq<int>>, i: nat)
    requires i < |p.insts| && UsesUpTo(p, uses, i, 4)
    ensures UsesUpTo(p, uses, i + 1, 0)
  {
  }

  lemma {:induction false} UsesPush(p: Program, uses: map<Id, seq<int>>, i: nat, j: nat)
    requires i < |p.insts| && j < 4 && UsesUpTo(p, uses, i, j) && p.insts[i].operands[j] != 0
    ensures var x := p.insts[i].operands[j];
      UsesUpTo(p, uses[x := (if x in uses then uses[x] else []) + [i]], i, j + 1)
  {
    var x := p.insts[i].operands[j];
    var before := if x in uses then uses[x] else [];
    var after := uses[x := before + [i]];
    forall a, b | 0 <= a < b < |before + [i]| ensures (before + [i])[a] <= (before + [i])[b] {
      if b == |before| {
        assert before[a] in before;
      }
    }
    assert i in before + [i];
    forall k | k in before + [i] ensures k in before || k == i {
    }
    assert Reads(p, i, j + 1, x);
    forall y | Reads(p, i, j, y) ensures Reads(p, i, j + 1, y) {
    }
    forall y | Reads(p, i, j + 1, y) ensures y in after && i in after[y] {
      if !Reads(p, i, j, y) {
        assert y == x;
      }
    }
  }

  lemma {:induction false} UsesSkip(p: Program, uses: map<Id, seq<int>>, i: nat, j: nat)
    requires i < |p.insts| && j < 4 && UsesUpTo(p, uses, i, j) && p.insts[i].operands[j] == 0
    ensures UsesUpTo(p, uses, i, j + 1)
  {
    forall y ensures Reads(p, i, j + 1, y) <==> Reads(p, i, j, y) {
    }
  }

  method CollectUses(p: Program, defPos: map<Id, int>) returns (ok: bool, uses: map<Id, seq<int>>)
    requires DefsOk(p, |p.inputs|, |p.insts|) && DefPositions(p, |p.inputs|, |p.insts|, defPos)
    ensures ok <==> Valid(p)
    ensures ok ==> UsesUpTo(p, uses, |p.insts|, 0)
  {
    hide Reads; hide Ascends; hide DefPositions; hide DefinedBefore;
    uses := map[];
    UsesStart(p);
    for i := 0 to |p.insts|
      invariant forall k :: 0 <= k < i ==> OperandIds(p.insts[k]) <= DefinedBefore(p, k)
      invariant UsesUpTo(p, uses, i, 0)
    {
      hide UsesUpTo;
      for j := 0 to 4
        invariant forall s :: 0 <= s < j && p.insts[i].operands[s] != 0 ==> p.insts[i].operands[s] in DefinedBefore(p, i)
        invariant UsesUpTo(p, uses, i, j)
      {
        var id := p.insts[i].operands[j];
        if id == 0 {
          UsesSkip(p, uses, i, j);
          continue;
        }
        DefinedMeansEarlier(p, defPos, id, i);
        if id !in defPos || defPos[id] >= i {
          assert id in OperandIds(p.insts[i]);
          return false, uses;
        }
        UsesPush(p, uses, i, j);
        uses := uses[id := (if id in uses then uses[id] else []) + [i]];
      }
      UsesNext(p, uses, i);
    }
    ok := true;
  }

  lemma UsesStart(p: Program)
    ensures UsesUpTo(p, map[], 0, 0)
  {
  }

  /** The first listed position after `pos`; `never` when there is none. */
  function FirstAfter(v: seq<int>, pos: int, never: int): int {
    if v == [] then never else if v[0] > pos then v[0] else FirstAfter(v[1..], pos, never)
  }

  function NextUseAfter(uses: map<Id, seq<int>>, id: Id, pos: int, never: int): int {
    if id in uses then FirstAfter(uses[id], pos, never) else never
  }

  lemma {:induction false} FirstAfterIsFirst(v: seq<int>, pos: int, never: int)
    requires Ascends(v)
    ensures var r := FirstAfter(v, pos, never);
      && (r == never || (r in v && r > pos))
      && (forall k :: k in v && k > pos ==> r <= k && r in v)
  {
    if v != [] && v[0] <= pos {
      forall a, b | 0 <= a < b < |v[1..]| ensures v[1..][a] <= v[1..][b] {
        assert v[a + 1] <= v[b + 1];
      }
      FirstAfterIsFirst(v[1..], pos, never);
    }
    forall k | k in v && k > pos ensures FirstAfter(v, pos, never) <= k && FirstAfter(v, pos, never) in v {
      var b :| 0 <= b < |v| && v[b] == k;
      assert v[0] <= v[b];
      if v[0] <= pos {
        assert k in v[1..];
      }
    }
  }

  /** The use lists answer the next-use query. */
  lemma {:induction false} NextUseFromLists(p: Program, uses: map<Id, seq<int>>, id: Id, i: nat)
    requires UsesUpTo(p, uses, |p.insts|, 0) && i <= |p.insts|
    ensures NextUseAfter(uses, id, i - 1, |p.insts|) == NextUse(p, id, i)
  {
    var r, s := NextUseAfter(uses, id, i - 1, |p.insts|), NextUse(p, id, i);
    NextUseIsFirst(p, id, i);
    forall k | 0 <= k < |p.insts| ensures id in OperandIds(p.insts[k]) <==> id in uses && k in uses[id] {
      ReadsAll(p, k, id);
    }
    if id in uses {
      FirstAfterIsFirst(uses[id], i - 1, |p.insts|);
      hide Reads; hide Ascends; hide FirstAfter; hide OperandIds;
      if s < |p.insts| {
        assert s in uses[id] && s > i - 1;
      }
    }
  }

  lemma UsedMeansListed(p: Program, uses: map<Id, seq<int>>, id: Id)
    requires UsesUpTo(p, uses, |p.insts|, 0)
    ensures id in uses <==> NextUse(p, id, 0) < |p.insts|
  {
    NextUseFromLists(p, uses, id, 0);
    if id in uses {
      FirstAfterIsFirst(uses[id], -1, |p.insts|);
      var k := uses[id][0];
      assert k in uses[id];
    }
  }

  // ----- levels -----

  method LeastOperandLevel(m: Model, inst: Instruction, levels: map<Id, nat>) returns (least: int)
    requires OperandIds(inst) <= levels.Keys
    ensures least == LeastLevel(m, inst, levels, 4)
  {
    least := m.freshLevel;
    for j := 0 to 4
      invariant least == LeastLevel(m, inst, levels, j)
    {
      if inst.operands[j] != 0 {
        assert inst.operands[j] in OperandIds(inst);
        if levels[inst.operands[j]] < least {
          least := levels[inst.operands[j]];
        }
      }
    }
  }

  /** The switch over declared effects, with every way an instruction can be rejected. */
  method ApplyEffect(m: Model, inst: Instruction, least: int) returns (r: Option<nat>)
    ensures r == ResultLevel(m, inst, least)
    ensures forall level :: r == Some(level) <==> Obeys(m, inst, least, level)
  {
    ResultLevelObeys(m, inst, least);
    if inst.opcode !in m.effects {
      return None;
    }
    var level := least;
    match m.effects[inst.opcode] {
      case Preserve =>
      case Consume =>
        level := least - 1;
      case SetParam0 =>
        level := inst.param;
        if level > least {
          return None;
        }
      case Unknown =>
        return None;
    }
    if level < 0 || level > m.freshLevel {
      return None;
    }
    r := Some(level);
  }

  method InferLevels(m: Model, p: Program) returns (r: Option<map<Id, nat>>)
    requires WellFormed(m) && Valid(p)
    ensures r == Levels(m, p, |p.insts|)
  {
    hide Valid; hide LeastLevel; hide ResultLevel; hide OperandIds; hide DefinedBefore;
    var levels: map<Id, nat> := map[];
    for k := 0 to |p.inputs|
      invariant forall x :: x in levels <==> x in p.inputs[..k]
      invariant forall x :: x in levels ==> levels[x] == m.freshLevel
    {
      assert p.inputs[..k + 1] == p.inputs[..k] + [p.inputs[k]];
      levels := levels[p.inputs[k] := m.freshLevel];
    }
    assert p.inputs[..|p.inputs|] == p.inputs;
    assert levels == InputLevels(m, p);
    assert Levels(m, p, 0) == Some(levels);
    hide Levels;
    for i := 0 to |p.insts|
      invariant Levels(m, p, i) == Some(levels)
    {
      OperandsHaveLevels(m, p, i);
      var least := LeastOperandLevel(m, p.insts[i], levels);
      var level := ApplyEffect(m, p.insts[i], least);
      if level.None? {
        LevelsBlocked(m, p, i, |p.insts|);
        return None;
      }
      LevelsAdvance(m, p, i);
      levels := levels[p.insts[i].resultId := level.value];
    }
    r := Some(levels);
  }

  lemma OperandsHaveLevels(m: Model, p: Program, i: nat)
    requires WellFormed(m) && Valid(p) && i < |p.insts| && Levels(m, p, i).Some?
    ensures OperandIds(p.insts[i]) <= Levels(m, p, i).value.Keys
  {
  }

  lemma {:induction false} LevelsBlocked(m: Model, p: Program, i: nat, n: nat)
    requires WellFormed(m) && Valid(p) && i < n <= |p.insts| && Levels(m, p, i).Some?
    requires OperandIds(p.insts[i]) <= Levels(m, p, i).value.Keys
    requires ResultLevel(m, p.insts[i], LeastLevel(m, p.insts[i], Levels(m, p, i).value, 4)).None?
    ensures Levels(m, p, n).None?
    decreases n
  {
    hide Valid; hide LeastLevel; hide ResultLevel; hide OperandIds; hide DefinedBefore;
    if i + 1 < n {
      LevelsBlocked(m, p, i, n - 1);
    }
  }

  // ----- sums and victims -----

  /** Adds up unit costs, walking the set in order. */
  method SumUnits(u: Units, s: set<Id>) returns (total: nat)
    ensures total == SumCost(u, s)
  {
    total := 0;
    var rest := s;
    while rest != {}
      invariant total + SumCost(u, rest) == SumCost(u, s)
    {
      LeastExists(rest);
      var id :| id in rest && forall y :: y in rest ==> id <= y;
      assert id == Min(rest);
      total := total + Cost(u, id);
      rest := rest - {id};
    }
  }

  /** Comparing with the best candidate so far, when the newcomer has the larger id. */
  lemma {:induction false} VictimSoFar(
      c: Config, i: nat, lastTouch: map<Id, int>, candidates: set<Id>, best: Option<Id>, id: Id)
    requires best.None? ==> candidates == {}
    requires best.Some? ==> IsVictim(c, i, lastTouch, candidates, best.value)
    requires forall x :: x in candidates ==> x < id
    ensures IsVictim(c, i, lastTouch, candidates + {id},
      if best.None? || Key(c, i, lastTouch, id) > Key(c, i, lastTouch, best.value) then id else best.value)
  {
    hide Key;
  }

  /** The planner's comparison of two residents under either policy. */
  method Compare(
      c: Config, uses: map<Id, seq<int>>, i: nat, lastTouch: map<Id, int>, id: Id, best: Option<Id>, bestKey: int)
    returns (better: bool, key: int)
    requires i < |c.p.insts| && UsesUpTo(c.p, uses, |c.p.insts|, 0)
    requires best.Some? ==> bestKey == RawKey(c, i, lastTouch, best.value)
    ensures key == RawKey(c, i, lastTouch, id)
    ensures better <==> best.None? || Key(c, i, lastTouch, id) > Key(c, i, lastTouch, best.value)
  {
    match c.policy
    case Belady =>
      NextUseFromLists(c.p, uses, id, i);
      key := NextUseAfter(uses, id, i - 1, |c.p.insts|);
      better := best.None? || key > bestKey;
    case Lru =>
      key := if id in lastTouch then lastTouch[id] else -1;
      better := best.None? || key < bestKey;
  }

  /** The number the planner keeps for its best candidate: a next use, or a last touch. */
  ghost function RawKey(c: Config, i: nat, lastTouch: map<Id, int>, id: Id): int {
    if c.policy.Belady? then Key(c, i, lastTouch, id) else -Key(c, i, lastTouch, id)
  }

  /** Half-way through the residents: `best` is the victim among those already passed. */
  ghost predicate Scanned(
      c: Config, i: nat, lastTouch: map<Id, int>, resident: set<Id>, rest: set<Id>, best: Option<Id>)
    requires i < |c.p.insts|
  {
    var seen := resident - rest - WorkingSet(c.p.insts[i]);
    && rest <= resident
    && (forall x, y :: x in seen && y in rest ==> x < y)
    && (if best.None? then seen == {} else IsVictim(c, i, lastTouch, seen, best.value))
  }

  lemma {:induction false} ScanOne(
      c: Config, i: nat, lastTouch: map<Id, int>, resident: set<Id>, rest: set<Id>, best: Option<Id>, id: Id)
    requires i < |c.p.insts| && Scanned(c, i, lastTouch, resident, rest, best)
    requires id in rest && forall y :: y in rest ==> id <= y
    ensures id in WorkingSet(c.p.insts[i]) ==> Scanned(c, i, lastTouch, resident, rest - {id}, best)
    ensures id !in WorkingSet(c.p.insts[i]) ==> Scanned(c, i, lastTouch, resident, rest - {id},
      if best.None? || Key(c, i, lastTouch, id) > Key(c, i, lastTouch, best.value) then Some(id) else best)
  {
    hide Key; hide WorkingSet; hide IsVictim;
    var skip := WorkingSet(c.p.insts[i]);
    Walk(resident, rest, skip, id);
    if id !in skip {
      VictimSoFar(c, i, lastTouch, resident - rest - skip, best, id);
    }
  }

  lemma {:induction false} ScanDone(c: Config, i: nat, lastTouch: map<Id, int>, resident: set<Id>, best: Option<Id>)
    requires i < |c.p.insts| && Scanned(c, i, lastTouch, resident, {}, best)
    ensures var candidates := resident - WorkingSet(c.p.insts[i]);
      best == if candidates == {} then None else Some(Victim(c, i, lastTouch, candidates))
  {
    hide Key; hide WorkingSet;
    assert resident - {} - WorkingSet(c.p.insts[i]) == resident - WorkingSet(c.p.insts[i]);
    if best.Some? {
      VictimIsUnique(c, i, lastTouch, resident - WorkingSet(c.p.insts[i]), best.value);
    }
  }

  lemma Walk(all: set<Id>, rest: set<Id>, skip: set<Id>, id: Id)
    requires rest <= all && id in rest
    ensures id in skip ==> all - (rest - {id}) - skip == all - rest - skip
    ensures id !in skip ==> all - (rest - {id}) - skip == all - rest - skip + {id}
  {
  }

  /** One pass over the residents in ascending order keeps the best candidate so far. */
  method SelectVictim(c: Config, uses: map<Id, seq<int>>, i: nat, lastTouch: map<Id, int>, resident: set<Id>)
    returns (victim: Option<Id>)
    requires i < |c.p.insts| && UsesUpTo(c.p, uses, |c.p.insts|, 0)
    ensures var candidates := resident - WorkingSet(c.p.insts[i]);
      victim == if candidates == {} then None else Some(Victim(c, i, lastTouch, candidates))
  {
    victim := None;
    var victimKey := 0;
    var rest := resident;
    assert Scanned(c, i, lastTouch, resident, rest, victim);
    hide UsesUpTo; hide Key; hide IsVictim; hide WorkingSet; hide RawKey; hide Scanned;
    while rest != {}
      invariant Scanned(c, i, lastTouch, resident, rest, victim)
      invariant victim.Some? ==> victimKey == RawKey(c, i, lastTouch, victim.value)
      decreases |rest|
    {
      LeastExists(rest);
      var id :| id in rest && forall y :: y in rest ==> id <= y;
      ScanOne(c, i, lastTouch, resident, rest, victim, id);
      if id !in WorkingSet(c.p.insts[i]) {
        var better, key := Compare(c, uses, i, lastTouch, id, victim, victimKey);
        if better {
          victim, victimKey := Some(id), key;
        }
      }
      rest := rest - {id};
    }
    ScanDone(c, i, lastTouch, resident, victim);
  }

  lemma VictimIsUnique(c: Config, i: nat, lastTouch: map<Id, int>, candidates: set<Id>, v: Id)
    requires IsVictim(c, i, lastTouch, candidates, v)
    ensures candidates != {} && v == Victim(c, i, lastTouch, candidates)
  {
    hide Key;
    var w := Victim(c, i, lastTouch, candidates);
    assert Before(c, i, lastTouch, v, w) && Before(c, i, lastTouch, w, v);
  }

  // ----- one instruction -----

  function Prepend(front: seq<Id>, rest: Option<seq<Id>>): Option<seq<Id>> {
    match rest case None => None case Some(r) => Some(front + r)
  }

  lemma EvictOne(c: Config, i: nat, lastTouch: map<Id, int>, resident: set<Id>, incoming: nat, victims: seq<Id>)
    requires i < |c.p.insts| && SumCost(c.units, resident) + incoming > c.budget
    ensures var candidates := resident - WorkingSet(c.p.insts[i]);
      if candidates == {} then Evictions(c, i, lastTouch, resident, incoming) == None
      else
        var v := Victim(c, i, lastTouch, candidates);
        && v in resident
        && Prepend(victims, Evictions(c, i, lastTouch, resident, incoming)) ==
             Prepend(victims + [v], Evictions(c, i, lastTouch, resident - {v}, incoming))
  {
    var candidates := resident - WorkingSet(c.p.insts[i]);
    if candidates != {} {
      var v := Victim(c, i, lastTouch, candidates);
      hide IsVictim; hide SumCost; hide WorkingSet;
      match Evictions(c, i, lastTouch, resident - {v}, incoming)
      case None =>
      case Some(rest) => assert victims + ([v] + rest) == victims + [v] + rest;
    }
  }

  /** The eviction loop: one victim at a time until the incoming units fit. */
  method EvictUntilFits(
      c: Config, uses: map<Id, seq<int>>, i: nat, lastTouch: map<Id, int>, before: set<Id>, unitsBefore: nat,
      incoming: nat)
    returns (ok: bool, victims: seq<Id>, resident: set<Id>, units: nat)
    requires i < |c.p.insts| && UsesUpTo(c.p, uses, |c.p.insts|, 0) && unitsBefore == SumCost(c.units, before)
    ensures Evictions(c, i, lastTouch, before, incoming) == if ok then Some(victims) else None
    ensures ok ==> resident == before - SetOf(victims) && units == SumCost(c.units, resident)
  {
    hide Evictions; hide UsesUpTo; hide IsVictim; hide WorkingSet; hide SumCost;
    victims, resident, units := [], before, unitsBefore;
    assert before - SetOf(victims) == before;
    StartEvicting(Evictions(c, i, lastTouch, before, incoming));
    while units + incoming > c.budget
      invariant units == SumCost(c.units, resident) && resident == before - SetOf(victims)
      invariant Evictions(c, i, lastTouch, before, incoming) ==
        Prepend(victims, Evictions(c, i, lastTouch, resident, incoming))
      decreases |resident|
    {
      EvictOne(c, i, lastTouch, resident, incoming, victims);
      var victim := SelectVictim(c, uses, i, lastTouch, resident);
      if victim.None? {
        ok := false;
        return;
      }
      var v := victim.value;
      SumAdd(c.units, resident - {v}, v);
      assert resident - {v} + {v} == resident;
      SetOfSnoc(victims, v);
      victims, resident, units := victims + [v], resident - {v}, units - Cost(c.units, v);
    }
    NoMoreEvictions(c, i, lastTouch, resident, incoming, victims);
    ok := true;
  }

  lemma StartEvicting(r: Option<seq<Id>>)
    ensures r == Prepend([], r)
  {
    if r.Some? {
      assert [] + r.value == r.value;
    }
  }

  lemma NoMoreEvictions(c: Config, i: nat, lastTouch: map<Id, int>, resident: set<Id>, incoming: nat, victims: seq<Id>)
    requires i < |c.p.insts| && SumCost(c.units, resident) + incoming <= c.budget
    ensures Prepend(victims, Evictions(c, i, lastTouch, resident, incoming)) == Some(victims)
  {
    assert victims + [] == victims;
  }

  /** The operands that are not resident, in ascending order. */
  method MissingOperands(c: Config, i: nat, resident: set<Id>) returns (missing: seq<Id>)
    requires i < |c.p.insts|
    ensures missing == Sorted(Missing(c, i, resident))
  {
    hide OperandIds;
    missing := [];
    var rest := OperandIds(c.p.insts[i]);
    while rest != {}
      invariant rest <= OperandIds(c.p.insts[i])
      invariant missing + Sorted(rest - resident) == Sorted(Missing(c, i, resident))
      decreases |rest|
    {
      hide Sorted; hide Missing;
      LeastExists(rest);
      var id :| id in rest && forall y :: y in rest ==> id <= y;
      if id !in resident {
        SortedStep(rest - resident, id);
        assert rest - {id} - resident == rest - resident - {id};
        missing := missing + [id];
      } else {
        assert rest - {id} - resident == rest - resident;
      }
      rest := rest - {id};
    }
    assert rest - resident == {};
  }

  /** The release rule for one working-set id. */
  predicate IsDead(c: Config, uses: map<Id, seq<int>>, i: nat, id: Id)
    requires i < |c.p.insts|
  {
    id !in c.pinned &&
    if id == c.p.insts[i].resultId then id !in uses else NextUseAfter(uses, id, i, |c.p.insts|) == |c.p.insts|
  }

  lemma IsDeadIsDead(c: Config, uses: map<Id, seq<int>>, i: nat, id: Id)
    requires i < |c.p.insts| && UsesUpTo(c.p, uses, |c.p.insts|, 0) && id in WorkingSet(c.p.insts[i])
    ensures IsDead(c, uses, i, id) <==> id in Dead(c, i)
  {
    hide UsesUpTo;
    UsedMeansListed(c.p, uses, id);
    NextUseFromLists(c.p, uses, id, i + 1);
  }

  /** Half-way through the working set: everything dead that was passed has been released, in order. */
  ghost predicate Releasing(dead: set<Id>, before: set<Id>, rest: set<Id>, free: seq<Id>, resident: set<Id>) {
    free + Sorted(rest * dead) == Sorted(dead) && resident == before - (dead - rest)
  }

  lemma ReleaseNothing(dead: set<Id>, before: set<Id>, all: set<Id>)
    requires dead <= all
    ensures Releasing(dead, before, all, [], before)
  {
    assert all * dead == dead;
    assert dead - all == {};
    hide Sorted;
  }

  lemma ReleaseOne(dead: set<Id>, before: set<Id>, rest: set<Id>, free: seq<Id>, resident: set<Id>, id: Id)
    requires Releasing(dead, before, rest, free, resident)
    requires IsLeast(id, rest) && id in before
    ensures id in dead ==> id in resident && Releasing(dead, before, rest - {id}, free + [id], resident - {id})
    ensures id !in dead ==> Releasing(dead, before, rest - {id}, free, resident)
  {
    hide Sorted;
    if id in dead {
      SortedStep(rest * dead, id);
      assert (rest - {id}) * dead == rest * dead - {id};
      assert before - (dead - (rest - {id})) == resident - {id};
    } else {
      assert (rest - {id}) * dead == rest * dead;
      assert dead - (rest - {id}) == dead - rest;
    }
  }

  lemma ReleasedAll(dead: set<Id>, before: set<Id>, free: seq<Id>, resident: set<Id>)
    requires Releasing(dead, before, {}, free, resident)
    ensures free == Sorted(dead) && resident == before - dead
  {
    assert {} * dead == {};
    assert dead - {} == dead;
  }

  /** Walks the working set in order, releasing what is dead. */
  method ReleaseDead(c: Config, uses: map<Id, seq<int>>, i: nat, before: set<Id>, unitsBefore: nat)
    returns (free: seq<Id>, resident: set<Id>, units: nat)
    requires i < |c.p.insts| && UsesUpTo(c.p, uses, |c.p.insts|, 0)
    requires WorkingSet(c.p.insts[i]) <= before && unitsBefore == SumCost(c.units, before)
    ensures free == Sorted(Dead(c, i)) && resident == before - Dead(c, i) && units == SumCost(c.units, resident)
  {
    DeadIsWorking(c, i);
    hide UsesUpTo; hide Dead; hide WorkingSet; hide IsDead; hide SumCost; hide Sorted; hide Releasing;
    free, resident, units := [], before, unitsBefore;
    var rest := WorkingSet(c.p.insts[i]);
    ReleaseNothing(Dead(c, i), before, rest);
    while rest != {}
      invariant rest <= WorkingSet(c.p.insts[i])
      invariant Releasing(Dead(c, i), before, rest, free, resident) && units == SumCost(c.units, resident)
      decreases |rest|
    {
      LeastExists(rest);
      var id :| id in rest && forall y :: y in rest ==> id <= y;
      IsDeadIsDead(c, uses, i, id);
      ReleaseOne(Dead(c, i), before, rest, free, resident, id);
      if IsDead(c, uses, i, id) {
        SumRemove(c.units, resident, id);
        free, resident, units := free + [id], resident - {id}, units - Cost(c.units, id);
      }
      rest := rest - {id};
    }
    ReleasedAll(Dead(c, i), before, free, resident);
  }

  lemma SumRemove(u: Units, s: set<Id>, id: Id)
    requires id in s
    ensures SumCost(u, s) == SumCost(u, s - {id}) + Cost(u, id)
  {
    hide SumCost;
    SumAdd(u, s - {id}, id);
    assert s - {id} + {id} == s;
  }

  lemma DeadIsWorking(c: Config, i: nat)
    requires i < |c.p.insts|
    ensures Dead(c, i) <= WorkingSet(c.p.insts[i])
  {
  }

  /** Allocates the result and transfers the missing operands, keeping the unit total. */
  method BringIn(c: Config, i: nat, before: set<Id>, unitsBefore: nat, missing: seq<Id>)
    returns (resident: set<Id>, units: nat)
    requires i < |c.p.insts| && unitsBefore == SumCost(c.units, before)
    requires c.p.insts[i].resultId !in before && c.p.insts[i].resultId !in missing
    requires NoDup(missing) && forall x :: x in missing ==> x !in before
    ensures resident == before + {c.p.insts[i].resultId} + SetOf(missing)
    ensures units == SumCost(c.units, resident)
  {
    var result := c.p.insts[i].resultId;
    hide SumCost; hide NoDup;
    SumAdd(c.units, before, result);
    resident, units := before + {result}, unitsBefore + Cost(c.units, result);
    assert resident == before + {result} + SetOf(missing[..0]);
    for k := 0 to |missing|
      invariant resident == before + {result} + SetOf(missing[..k])
      invariant units == SumCost(c.units, resident)
    {
      assert missing[..k + 1] == missing[..k] + [missing[k]];
      SetOfSnoc(missing[..k], missing[k]);
      NotYetSeen(missing, k);
      SumAdd(c.units, resident, missing[k]);
      resident, units := resident + {missing[k]}, units + Cost(c.units, missing[k]);
    }
    assert missing[..|missing|] == missing;
  }

  lemma NotYetSeen(q: seq<Id>, k: nat)
    requires NoDup(q) && k < |q|
    ensures q[k] !in q[..k]
  {
  }

  /** The next element when a set is walked in order. */
  method NextInOrder(rest: set<Id>) returns (id: Id)
    requires rest != {}
    ensures IsLeast(id, rest) && id in rest
  {
    LeastExists(rest);
    id :| id in rest && forall y :: y in rest ==> id <= y;
  }

  /** Marks the working set as touched at `i`. */
  method Touch(c: Config, i: nat, before: map<Id, int>) returns (lastTouch: map<Id, int>)
    requires i < |c.p.insts|
    ensures lastTouch == Touched(before, WorkingSet(c.p.insts[i]), i)
  {
    var inst := c.p.insts[i];
    lastTouch := before[inst.resultId := i];
    var rest := OperandIds(inst);
    ghost var done := {inst.resultId};
    hide OperandIds; hide Touched; hide IsLeast;
    TouchStart(before, inst.resultId, i);
    while rest != {}
      invariant done + rest == WorkingSet(inst) && lastTouch == Touched(before, done, i)
      decreases |rest|
    {
      var id := NextInOrder(rest);
      TouchOne(before, done, i, id);
      lastTouch, rest, done := lastTouch[id := i], rest - {id}, done + {id};
    }
    assert done == WorkingSet(inst);
  }

  lemma TouchStart(before: map<Id, int>, id: Id, i: int)
    ensures Touched(before, {id}, i) == before[id := i]
  {
  }

  lemma TouchOne(before: map<Id, int>, s: set<Id>, i: int, id: Id)
    ensures Touched(before, s, i)[id := i] == Touched(before, s + {id}, i)
  {
  }

  // ----- the planner -----

  /** Makes room for instruction `i` under a budget, or finds that its working set does not fit. */
  method MakeRoomFor(
      c: Config, uses: map<Id, seq<int>>, i: nat, s: State, units: nat, missing: seq<Id>)
    returns (ok: bool, victims: seq<Id>, resident: set<Id>, left: nat)
    requires i < |c.p.insts| && UsesUpTo(c.p, uses, |c.p.insts|, 0)
    requires units == SumCost(c.units, s.resident) && missing == Sorted(Missing(c, i, s.resident))
    ensures MakeRoom(c, i, s) == if ok then Some(victims) else None
    ensures ok ==> resident == s.resident - SetOf(victims) && left == SumCost(c.units, resident)
  {
    hide UsesUpTo; hide WorkingSet; hide SumCost; hide Evictions; hide Sorted; hide Missing;
    ok, victims, resident, left := true, [], s.resident, units;
    assert s.resident - SetOf(victims) == s.resident;
    if c.budget > 0 {
      var workingUnits := SumUnits(c.units, WorkingSet(c.p.insts[i]));
      if workingUnits > c.budget {
        ok := false;
        return;
      }
      SortedEnumerates(Missing(c, i, s.resident));
      var missingUnits := SumUnits(c.units, set x | x in missing);
      assert (set x | x in missing) == Missing(c, i, s.resident);
      var incoming := Cost(c.units, c.p.insts[i].resultId) + missingUnits;
      ok, victims, resident, left := EvictUntilFits(c, uses, i, s.lastTouch, s.resident, units, incoming);
    }
  }

  /** Plans one instruction. */
  method PlanInstruction(c: Config, uses: map<Id, seq<int>>, i: nat, s: State, units: nat)
    returns (next: Option<State>, left: nat)
    requires i < |c.p.insts| && Valid(c.p) && UsesUpTo(c.p, uses, |c.p.insts|, 0)
    requires units == SumCost(c.units, s.resident) && s.resident <= DefinedBefore(c.p, i)
    ensures next == Step(c, i, s)
    ensures next.Some? ==> left == SumCost(c.units, next.value.resident)
  {
    hide UsesUpTo; hide WorkingSet; hide SumCost; hide Sorted; hide Missing; hide Dead; hide NoDup; hide Ascending;
    hide MakeRoom; hide DefinedBefore; hide Valid; hide AtDispatch; hide SetOf; hide OperandIds;
    left := 0;
    var missing := MissingOperands(c, i, s.resident);
    var ok, victims, kept, keptUnits := MakeRoomFor(c, uses, i, s, units, missing);
    if !ok {
      next := None;
      return;
    }
    RoomIsMade(c, i, s);
    MissingList(c, i, s, missing);
    var device, deviceUnits := BringIn(c, i, kept, keptUnits, missing);
    DispatchParts(c, i, s, victims);
    var lastTouch := Touch(c, i, s.lastTouch);
    var free, resident, residentUnits := ReleaseDead(c, uses, i, device, deviceUnits);
    var stats := Stats(
      Max(s.stats.highWater, |device|), s.stats.allocs + 1, s.stats.prefetches + |missing|,
      s.stats.evicts + |victims|,
      if c.units.Slots? then s.stats.highWaterBytes else Max(s.stats.highWaterBytes, deviceUnits));
    left := residentUnits;
    next := Some(State(resident, lastTouch,
      s.actions + [Actions(victims, [c.p.insts[i].resultId], missing, free)], stats));
  }

  lemma MissingList(c: Config, i: nat, s: State, missing: seq<Id>)
    requires i < |c.p.insts| && Valid(c.p) && s.resident <= DefinedBefore(c.p, i)
    requires missing == Sorted(Missing(c, i, s.resident))
    ensures NoDup(missing) && SetOf(missing) == Missing(c, i, s.resident) && |missing| == |Missing(c, i, s.resident)|
    ensures c.p.insts[i].resultId !in missing && c.p.insts[i].resultId !in s.resident
    ensures forall x :: x in missing ==> x !in s.resident
  {
    SortedEnumerates(Missing(c, i, s.resident));
    hide Sorted;
    forall x | x in missing ensures x in Missing(c, i, s.resident) {
      assert x in SetOf(missing);
    }
  }

  lemma {:induction false} RunBlocked(c: Config, i: nat, n: nat)
    requires i <= n <= |c.p.insts| && Run(c, i).None?
    ensures Run(c, n).None?
    decreases n
  {
    hide Step;
    if i < n {
      RunBlocked(c, i, n - 1);
    }
  }

  /** The inputs nothing reads, for the last instruction to release. */
  method CollectUnusedInputs(c: Config, uses: map<Id, seq<int>>) returns (unused: seq<Id>)
    requires UsesUpTo(c.p, uses, |c.p.insts|, 0)
    ensures unused == UnusedInputs(c, |c.p.inputs|)
  {
    hide UsesUpTo;
    unused := [];
    for k := 0 to |c.p.inputs|
      invariant unused == UnusedInputs(c, k)
    {
      UsedMeansListed(c.p, uses, c.p.inputs[k]);
      NextUseBounded(c.p, c.p.inputs[k]);
      if c.p.inputs[k] !in c.pinned && c.p.inputs[k] !in uses {
        unused := unused + [c.p.inputs[k]];
      }
    }
  }

  lemma NextUseBounded(p: Program, x: Id)
    ensures NextUse(p, x, 0) <= |p.insts|
  {
  }

  /** Plans the whole program. */
  method PlanProgram(c: Config, uses: map<Id, seq<int>>) returns (plan: Option<Plan>)
    requires Valid(c.p) && UsesUpTo(c.p, uses, |c.p.insts|, 0)
    ensures plan == PlanOf(c)
  {
    hide UsesUpTo; hide Step; hide SumCost; hide Valid; hide UnusedInputs; hide DefinedBefore;
    var s := Start;
    var units := 0;
    StartCostsNothing(c);
    for i := 0 to |c.p.insts|
      invariant Run(c, i) == Some(s) && units == SumCost(c.units, s.resident)
    {
      RunIsDefined(c, i);
      var next;
      next, units := PlanInstruction(c, uses, i, s, units);
      if next.None? {
        RunBlocked(c, i + 1, |c.p.insts|);
        return None;
      }
      s := next.value;
    }
    var actions := s.actions;
    RunLength(c, |c.p.insts|);
    if |c.p.insts| > 0 {
      var unused := CollectUnusedInputs(c, uses);
      var last := actions[|actions| - 1];
      actions := actions[|actions| - 1 := last.(free := last.free + unused)];
    }
    hide Run;
    plan := Some(Plan(actions, s.stats));
  }

  lemma StartCostsNothing(c: Config)
    ensures SumCost(c.units, Start.resident) == 0
  {
  }

  lemma RunIsDefined(c: Config, i: nat)
    requires Valid(c.p) && i <= |c.p.insts| && Run(c, i).Some?
    ensures Run(c, i).value.resident <= DefinedBefore(c.p, i)
  {
    hide Step;
    TraceIsRun(c, i);
    RunKeepsOk(c, Trace(c, i), i);
  }

  lemma RunLength(c: Config, i: nat)
    requires i <= |c.p.insts| && Run(c, i).Some?
    ensures |Run(c, i).value.actions| == i
  {
    hide Step;
    TraceIsRun(c, i);
    ActionsGrow(c, Trace(c, i), i, i);
  }

  /** The planner: check definitions, collect uses, infer levels, plan. Duplicates among the pinned ids
      do not matter. */
  method Analyze(p: Program, pinned: seq<Id>, budget: nat, policy: Policy, model: Option<Model>)
    returns (plan: Option<Plan>)
    ensures plan == Analysis(p, SetOf(pinned), budget, policy, model)
  {
    hide PlanOf; hide UsesUpTo; hide Levels; hide DefinedBefore; hide DefPositions;
    var ok, defPos := CollectDefs(p);
    if !ok {
      return None;
    }
    var valid, uses := CollectUses(p, defPos);
    if !valid {
      return None;
    }
    hide Valid;
    var units := Slots;
    if model.Some? {
      var m := model.value;
      if !WellFormed(m) {
        return None;
      }
      var levels := InferLevels(m, p);
      if levels.None? {
        return None;
      }
      units := Bytes(m.bytesByLevel, levels.value);
    }
    plan := PlanProgram(Config(p, SetOf(pinned), budget, policy, units), uses);
  }
}
