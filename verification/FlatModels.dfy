/** Byte budgets: where every level has one size planning in bytes is planning in slots, and where sizes differ
    farthest-next-use is no longer optimal. */
module FlatModels {
  import opened Fhn
  import opened Sets
  import opened MovementPlan
  import opened Residency
  import opened BeladyOptimality
  import opened Budgets
  import opened LevelModel
  import opened Analyzer

  // ----- one size for every level -----

  ghost predicate OneSize(m: Model, size: nat) {
    forall l :: 0 <= l < |m.bytesByLevel| ==> m.bytesByLevel[l] == size
  }

  /** Under such a model every id of an accepted program costs the same. */
  lemma {:induction false} OneSizeIsFlat(m: Model, p: Program, size: nat)
    requires Valid(p) && UnitsOf(Some(m), p).Some? && OneSize(m, size)
    ensures Flat(UnitsOf(Some(m), p).value, p, size)
  {
    hide Levels; hide DefinedBefore; hide Valid;
    LevelsInRange(m, p, |p.insts|);
    LevelsDefined(m, p, |p.insts|);
    assert m.bytesByLevel[m.freshLevel] != 0;
  }

  lemma AnalysisIs(p: Program, pinned: set<Id>, budget: nat, policy: Policy, model: Option<Model>)
    requires Valid(p)
    ensures UnitsOf(None, p) == Some(Slots)
    ensures Analysis(p, pinned, budget, policy, model) ==
      match UnitsOf(model, p)
      case None => None
      case Some(units) => PlanOf(Config(p, pinned, budget, policy, units))
  {
    hide PlanOf; hide Levels; hide Valid;
  }

  /** With one size for every level, `budget` bytes that hold `slots` buffers give a plan exactly when the level
      trace is accepted and `slots` slots do, and the plan is the same but for its byte high-water mark. */
  lemma {:induction false} OneSizeAnalysis(
      p: Program, pinned: set<Id>, slots: nat, budget: nat, policy: Policy, m: Model, size: nat)
    requires Valid(p) && OneSize(m, size) && Holds(size, slots, budget)
    ensures Analysis(p, pinned, budget, policy, Some(m)).Some? <==>
      (UnitsOf(Some(m), p).Some? && Analysis(p, pinned, slots, policy, None).Some?)
    ensures Analysis(p, pinned, budget, policy, Some(m)).Some? ==>
      (var bytes := Analysis(p, pinned, budget, policy, Some(m)).value;
       var plan := Analysis(p, pinned, slots, policy, None).value;
       bytes.actions == plan.actions && bytes.stats == ScaledStats(size, plan.stats))
  {
    hide *;
    AnalysisIs(p, pinned, budget, policy, Some(m));
    AnalysisIs(p, pinned, slots, policy, None);
    if UnitsOf(Some(m), p).Some? {
      var units := UnitsOf(Some(m), p).value;
      var c, d := Config(p, pinned, slots, policy, Slots), Config(p, pinned, budget, policy, units);
      OneSizeIsFlat(m, p, size);
      FlatPairIs(c, d, size);
      FlatBytesAreSlots(c, d, size);
    }
  }

  lemma FlatPairIs(c: Config, d: Config, size: nat)
    requires Valid(c.p) && c.units == Slots && Flat(d.units, c.p, size) && Holds(size, c.budget, d.budget)
    requires d == c.(units := d.units, budget := d.budget)
    ensures FlatPair(c, d, size)
  {
    hide Valid; hide Flat; hide Holds;
  }

  /** A schedule of ids that cost the same is a schedule of slots. */
  lemma {:induction false} FlatSchedule(c: Config, d: Config, size: nat, r: seq<set<Id>>)
    requires FlatPair(c, d, size) && IsSchedule(d, r) && HoldsDefined(d, r)
    ensures IsSchedule(c, r)
  {
    hide SumCost; hide WorkingSet; hide Valid; hide Defs; hide DefinedBefore; hide Flat; hide Holds; hide HoldsDefined;
    FlatPairMeans(c, d, size);
    forall i | 0 <= i < |r|
      ensures WorkingSet(c.p.insts[i]) <= r[i] && (c.budget > 0 ==> SumCost(c.units, r[i]) <= c.budget)
    {
      HoldsDefs(d, r, i);
      if c.budget > 0 {
        FlatSum(d.units, c.p, size, r[i]);
        SumSlots(r[i]);
        FlatFits(size, c.budget, d.budget, |r[i]|);
      }
    }
  }

  lemma HoldsDefs(c: Config, r: seq<set<Id>>, i: nat)
    requires HoldsDefined(c, r) && i < |r|
    ensures |r| == |c.p.insts| && r[i] <= Defs(c.p)
  {
    DefinedBeforeMonotone(c.p, i + 1, |c.p.insts|);
    hide DefinedBefore;
  }

  lemma {:induction false} DropsIgnoreUnits(c: Config, d: Config, r: seq<set<Id>>)
    requires c.p == d.p && c.pinned == d.pinned && |r| == |c.p.insts|
    ensures Drops(c, r, |r|) == Drops(d, r, |r|) && Loads(c, r, |r|) == Loads(d, r, |r|)
  {
    hide Drops; hide Loads;
    PinsDropMore(c, d, r, |r|);
    PinsDropMore(d, c, r, |r|);
    LoadsIgnorePolicy(c, d, r, |r|);
  }

  lemma {:induction false} SlotsIn(size: nat, budget: nat) returns (slots: nat)
    requires size > 0 && (budget == 0 || budget >= size)
    ensures Holds(size, slots, budget)
  {
    slots := budget / size;
    assert budget == size * slots + budget % size;
    Distribute(size, slots, 1);
  }

  lemma NoInstructions(c: Config)
    requires c.p.insts == []
    ensures PlanOf(c).Some? && PlanOf(c).value.stats.prefetches == PlanOf(c).value.stats.evicts == 0
  {
  }

  /** A budget smaller than a buffer runs nothing. */
  lemma {:induction false} LessThanABuffer(d: Config, size: nat)
    requires Valid(d.p) && Flat(d.units, d.p, size) && PlanOf(d).Some?
    ensures d.p.insts == [] || d.budget == 0 || size <= d.budget
  {
    hide PlanOf; hide Valid; hide Defs; hide WorkingSet;
    PlanExistsIff(d);
    if d.p.insts != [] {
      TouchesDefs(d.p, 0);
      InWorkingSetOf(d.p.insts[0]);
      FlatSum(d.units, d.p, size, WorkingSet(d.p.insts[0]));
      OneMore(size, WorkingSet(d.p.insts[0]), d.p.insts[0].resultId);
    }
  }

  lemma InWorkingSetOf(inst: Instruction)
    ensures inst.resultId in WorkingSet(inst)
  {
  }

  /** So Belady is optimal in bytes too where every level has one size. */
  lemma {:induction false} OneSizeIsOptimal(
      p: Program, pinned: set<Id>, budget: nat, m: Model, size: nat, units: Units, r: seq<set<Id>>)
    requires Valid(p) && OneSize(m, size) && UnitsOf(Some(m), p) == Some(units)
    requires Analysis(p, pinned, budget, Belady, Some(m)).Some?
    requires IsSchedule(Config(p, pinned, budget, Belady, units), r)
    ensures |r| == |p.insts|
    ensures var stats := Analysis(p, pinned, budget, Belady, Some(m)).value.stats;
      var d := Config(p, pinned, budget, Belady, units);
      stats.prefetches <= Loads(d, r, |r|) && stats.evicts <= Drops(d, r, |r|)
  {
    hide *;
    AnalysisIs(p, pinned, budget, Belady, Some(m));
    var d := Config(p, pinned, budget, Belady, units);
    OneSizeIsFlat(m, p, size);
    FlatIsPositive(units, p, size);
    TrimmedIsSchedule(d, r);
    if 0 < budget < size {
      LessThanABuffer(d, size);
      NoInstructions(d);
    } else {
      var slots := SlotsIn(size, budget);
      AnalysisIs(p, pinned, slots, Belady, None);
      OneSizeAnalysis(p, pinned, slots, budget, Belady, m, size);
      var c, s := Config(p, pinned, slots, Belady, Slots), Trimmed(d, r);
      FlatPairIs(c, d, size);
      TrimmedSize(d, r);
      FlatSchedule(c, d, size, s);
      BeladyIsOptimal(c, s);
      DropsIgnoreUnits(c, d, s);
      TrimmedLoads(d, r, |r|);
      TrimmedDrops(d, r, |r|);
      ScaledCounts(size, Analysis(p, pinned, slots, Belady, None).value.stats);
    }
  }

  lemma FlatIsPositive(u: Units, p: Program, size: nat)
    requires Flat(u, p, size)
    ensures size > 0
  {
  }

  lemma TrimmedSize(c: Config, r: seq<set<Id>>)
    requires |r| == |c.p.insts|
    ensures |Trimmed(c, r)| == |r|
  {
  }

  lemma ScaledCounts(size: nat, stats: Stats)
    ensures ScaledStats(size, stats).prefetches == stats.prefetches && ScaledStats(size, stats).evicts == stats.evicts
  {
  }

  // ----- two sizes -----

  /** A fresh ciphertext takes two bytes and a consumed one takes one. */
  const TWO_SIZES: Model := Model(1, [1, 2], map[MULT_CS := Consume, ROTATE := Preserve])

  function Unary1(op: Opcode, result: Id, operand: Id): Instruction {
    Instruction(op, result, [operand, 0, 0, 0], 0, 0)
  }

  const TWO_SIZE_PROGRAM: Program := Program(
    [Unary1(MULT_CS, 2, 1), Unary1(MULT_CS, 4, 3), Unary1(MULT_CS, 5, 1), Unary1(ROTATE, 6, 2)], [1, 3], [5, 6])

  const TWO_SIZE_LEVELS: map<Id, nat> := map[1 := 1, 3 := 1, 2 := 0, 4 := 0, 5 := 0, 6 := 0]

  const TWO_SIZE_CONFIG: Config := Config(TWO_SIZE_PROGRAM, {}, 4, Belady, Bytes([1, 2], TWO_SIZE_LEVELS))

  lemma TwoSizeUses()
    ensures |TWO_SIZE_PROGRAM.insts| == 4
    ensures OperandIds(TWO_SIZE_PROGRAM.insts[0]) == {1} && OperandIds(TWO_SIZE_PROGRAM.insts[1]) == {3}
    ensures OperandIds(TWO_SIZE_PROGRAM.insts[2]) == {1} && OperandIds(TWO_SIZE_PROGRAM.insts[3]) == {2}
    ensures WorkingSet(TWO_SIZE_PROGRAM.insts[0]) == {1, 2} && WorkingSet(TWO_SIZE_PROGRAM.insts[1]) == {3, 4}
    ensures WorkingSet(TWO_SIZE_PROGRAM.insts[2]) == {1, 5} && WorkingSet(TWO_SIZE_PROGRAM.insts[3]) == {2, 6}
  {
    assert Unary1(MULT_CS, 2, 1).operands[0] == 1 && Unary1(MULT_CS, 4, 3).operands[0] == 3;
    assert Unary1(ROTATE, 6, 2).operands[0] == 2 && Unary1(MULT_CS, 5, 1).operands[0] == 1;
  }

  lemma TwoSizeDefined()
    ensures |TWO_SIZE_PROGRAM.insts| == 4
    ensures DefinedBefore(TWO_SIZE_PROGRAM, 0) == {1, 3} && DefinedBefore(TWO_SIZE_PROGRAM, 1) == {1, 2, 3}
    ensures DefinedBefore(TWO_SIZE_PROGRAM, 2) == {1, 2, 3, 4}
    ensures DefinedBefore(TWO_SIZE_PROGRAM, 3) == {1, 2, 3, 4, 5}
  {
    var p := TWO_SIZE_PROGRAM;
    assert p.inputs[0] == 1 && p.inputs[1] == 3;
    assert DefinedBefore(p, 0) == {1, 3};
    DefinedBeforeGrows(p, 0);
    DefinedBeforeGrows(p, 1);
    DefinedBeforeGrows(p, 2);
    hide DefinedBefore;
  }

  lemma TwoSizeValid()
    ensures Valid(TWO_SIZE_PROGRAM)
  {
    TwoSizeUses();
    TwoSizeDefined();
    hide OperandIds; hide WorkingSet; hide DefinedBefore;
    var p := TWO_SIZE_PROGRAM;
    forall i | 0 <= i < |p.insts|
      ensures p.insts[i].resultId != 0 && p.insts[i].resultId !in DefinedBefore(p, i)
      ensures OperandIds(p.insts[i]) <= DefinedBefore(p, i)
    {
      assert i == 0 || i == 1 || i == 2 || i == 3;
    }
  }

  lemma OneOperandLevel(m: Model, op: Opcode, result: Id, x: Id, levels: map<Id, nat>)
    requires x != 0 && x in levels && levels[x] <= m.freshLevel
    ensures OperandIds(Unary1(op, result, x)) == {x}
    ensures LeastLevel(m, Unary1(op, result, x), levels, 4) == levels[x]
  {
    var inst := Unary1(op, result, x);
    assert inst.operands[0] == x;
    assert OperandIds(inst) == {x};
    assert LeastLevel(m, inst, levels, 1) == levels[x];
    assert LeastLevel(m, inst, levels, 2) == levels[x];
    assert LeastLevel(m, inst, levels, 3) == levels[x];
  }

  lemma TwoSizeInputs()
    requires Valid(TWO_SIZE_PROGRAM)
    ensures WellFormed(TWO_SIZES) && Levels(TWO_SIZES, TWO_SIZE_PROGRAM, 0) == Some(map[1 := 1, 3 := 1])
  {
    var p := TWO_SIZE_PROGRAM;
    hide Valid;
    assert p.inputs[0] == 1 && p.inputs[1] == 3;
    assert forall x :: x in p.inputs <==> x == 1 || x == 3;
    assert InputLevels(TWO_SIZES, p) == map[1 := 1, 3 := 1];
  }

  lemma TwoSizeLevel(i: nat, levels: map<Id, nat>, op: Opcode, result: Id, operand: Id)
    requires Valid(TWO_SIZE_PROGRAM) && WellFormed(TWO_SIZES) && i < |TWO_SIZE_PROGRAM.insts|
    requires TWO_SIZE_PROGRAM.insts[i] == Unary1(op, result, operand) && (op == MULT_CS || op == ROTATE)
    requires Levels(TWO_SIZES, TWO_SIZE_PROGRAM, i) == Some(levels)
    requires operand != 0 && operand in levels && levels[operand] == if op == MULT_CS then 1 else 0
    ensures Levels(TWO_SIZES, TWO_SIZE_PROGRAM, i + 1) == Some(levels[result := 0])
  {
    hide Levels; hide LeastLevel; hide Valid; hide OperandIds;
    OneOperandLevel(TWO_SIZES, op, result, operand, levels);
    LevelsAdvance(TWO_SIZES, TWO_SIZE_PROGRAM, i);
  }

  lemma TwoSizeInsts()
    ensures TWO_SIZE_PROGRAM.insts ==
      [Unary1(MULT_CS, 2, 1), Unary1(MULT_CS, 4, 3), Unary1(MULT_CS, 5, 1), Unary1(ROTATE, 6, 2)]
  {
  }

  lemma UnitsAre(levels: map<Id, nat>)
    requires Valid(TWO_SIZE_PROGRAM) && WellFormed(TWO_SIZES) && levels == TWO_SIZE_LEVELS
    ensures Levels(TWO_SIZES, TWO_SIZE_PROGRAM, |TWO_SIZE_PROGRAM.insts|) == Some(levels) ==>
      UnitsOf(Some(TWO_SIZES), TWO_SIZE_PROGRAM) == Some(TWO_SIZE_CONFIG.units)
  {
    hide Levels; hide Valid;
  }

  /** The levels of inference on the way to TWO_SIZE_LEVELS. */
  lemma TwoSizeSteps() returns (l0: map<Id, nat>, l1: map<Id, nat>, l2: map<Id, nat>, l3: map<Id, nat>)
    ensures l0 == map[1 := 1, 3 := 1] && l0[2 := 0] == l1 && l1[4 := 0] == l2 && l2[5 := 0] == l3
    ensures l3[6 := 0] == TWO_SIZE_LEVELS
    ensures 1 in l0 && l0[1] == 1 && 3 in l1 && l1[3] == 1 && 1 in l2 && l2[1] == 1 && 2 in l3 && l3[2] == 0
  {
    l0 := map[1 := 1, 3 := 1];
    l1 := l0[2 := 0];
    l2 := l1[4 := 0];
    l3 := l2[5 := 0];
  }

  lemma {:induction false} TwoSizeUnits()
    requires Valid(TWO_SIZE_PROGRAM)
    ensures WellFormed(TWO_SIZES)
    ensures UnitsOf(Some(TWO_SIZES), TWO_SIZE_PROGRAM) == Some(TWO_SIZE_CONFIG.units)
  {
    TwoSizeInputs();
    TwoSizeInsts();
    hide *;
    UnitsAre(TWO_SIZE_LEVELS);
    var l0, l1, l2, l3 := TwoSizeSteps();
    TwoSizeLevel(0, l0, MULT_CS, 2, 1);
    TwoSizeLevel(1, l1, MULT_CS, 4, 3);
    TwoSizeLevel(2, l2, MULT_CS, 5, 1);
    TwoSizeLevel(3, l3, ROTATE, 6, 2);
  }

  lemma TwoSizeNextUses()
    ensures NextUse(TWO_SIZE_PROGRAM, 1, 1) == 2 && NextUse(TWO_SIZE_PROGRAM, 2, 1) == 3
    ensures NextUse(TWO_SIZE_PROGRAM, 2, 0) == 3 && NextUse(TWO_SIZE_PROGRAM, 3, 2) == 4
    ensures NextUse(TWO_SIZE_PROGRAM, 4, 0) == 4 && NextUse(TWO_SIZE_PROGRAM, 1, 3) == 4
    ensures NextUse(TWO_SIZE_PROGRAM, 5, 0) == 4
  {
    TwoSizeUses();
    hide OperandIds; hide WorkingSet;
    var p := TWO_SIZE_PROGRAM;
    assert forall x :: NextUse(p, x, 4) == 4;
    assert forall x :: NextUse(p, x, 3) == if x == 2 then 3 else 4;
    assert forall x :: NextUse(p, x, 2) == if x == 1 then 2 else NextUse(p, x, 3);
    assert forall x :: NextUse(p, x, 1) == if x == 3 then 1 else NextUse(p, x, 2);
    assert forall x :: NextUse(p, x, 0) == if x == 1 then 0 else NextUse(p, x, 1);
  }

  lemma TwoSizeDead()
    ensures |TWO_SIZE_CONFIG.p.insts| == 4 && Dead(TWO_SIZE_CONFIG, 0) == {}
    ensures Dead(TWO_SIZE_CONFIG, 1) == {3, 4} && Dead(TWO_SIZE_CONFIG, 2) == {1, 5}
  {
    TwoSizeUses();
    TwoSizeNextUses();
    hide OperandIds; hide WorkingSet; hide NextUse;
    var c := TWO_SIZE_CONFIG;
    assert c.p.insts[0].resultId == 2 && c.p.insts[1].resultId == 4 && c.p.insts[2].resultId == 5;
  }

  lemma TwoSizeCosts(a: Id, b: Id, c: Id)
    requires a != b && b != c && c != a
    ensures var u := TWO_SIZE_CONFIG.units;
      && SumCost(u, {}) == 0 && SumCost(u, {a}) == Cost(u, a) && SumCost(u, {a, b}) == Cost(u, a) + Cost(u, b)
      && SumCost(u, {a, b, c}) == Cost(u, a) + Cost(u, b) + Cost(u, c)
      && Cost(u, 1) == Cost(u, 3) == 2 && Cost(u, 2) == Cost(u, 4) == Cost(u, 5) == Cost(u, 6) == 1
  {
    var u := TWO_SIZE_CONFIG.units;
    assert SumCost(u, {}) == 0;
    hide SumCost;
    SumAdd(u, {}, a);
    SumAdd(u, {a}, b);
    SumAdd(u, {a, b}, c);
    assert {} + {a} == {a} && {a} + {b} == {a, b} && {a, b} + {c} == {a, b, c};
  }

  lemma MakeRoomIs(c: Config, i: nat, s: State, operand: Id)
    requires i < |c.p.insts| && OperandIds(c.p.insts[i]) == {operand} && operand !in s.resident && c.budget > 0
    ensures Missing(c, i, s.resident) == {operand}
    ensures MakeRoom(c, i, s) ==
      if SumCost(c.units, WorkingSet(c.p.insts[i])) > c.budget then None
      else Evictions(c, i, s.lastTouch, s.resident,
        Cost(c.units, c.p.insts[i].resultId) + SumCost(c.units, {operand}))
  {
    hide SumCost; hide Evictions; hide OperandIds; hide Cost;
    assert Missing(c, i, s.resident) == {operand};
  }

  /** The Belady plan evicts the small buffer with the farthest next use, which does not make room, and then the
      large one too. */
  lemma TwoSizeEvictions(lastTouch: map<Id, int>)
    ensures |TWO_SIZE_CONFIG.p.insts| == 4
    ensures Evictions(TWO_SIZE_CONFIG, 1, lastTouch, {1, 2}, 3) == Some([2, 1])
  {
    var c := TWO_SIZE_CONFIG;
    TwoSizeUses();
    TwoSizeNextUses();
    TwoSizeCosts(1, 2, 3);
    hide Evictions; hide SumCost; hide NextUse; hide WorkingSet; hide Cost; hide OperandIds;
    EvictionsUnfold(c, 1, lastTouch, {1, 2}, 3);
    EvictionsUnfold(c, 1, lastTouch, {1}, 3);
    EvictionsUnfold(c, 1, lastTouch, {}, 3);
    assert {1, 2} - {3, 4} == {1, 2} && {1} - {3, 4} == {1};
    assert IsVictim(c, 1, lastTouch, {1, 2}, Victim(c, 1, lastTouch, {1, 2}));
    assert !Before(c, 1, lastTouch, 1, 2);
    assert Victim(c, 1, lastTouch, {1, 2}) == 2 && {1, 2} - {2} == {1};
    assert Victim(c, 1, lastTouch, {1}) == 1 && {1} - {1} == {};
    assert [1] + [] == [1] && [2] + [1] == [2, 1];
  }

  /** One step, given its victims. */
  lemma StepWith(c: Config, i: nat, s: State, operand: Id, victims: seq<Id>)
    requires i < |c.p.insts| && OperandIds(c.p.insts[i]) == {operand} && operand !in s.resident
    requires MakeRoom(c, i, s) == Some(victims)
    ensures Step(c, i, s).Some?
    ensures var next := Step(c, i, s).value;
      && next.resident == s.resident - SetOf(victims) + WorkingSet(c.p.insts[i]) - Dead(c, i)
      && next.stats.prefetches == s.stats.prefetches + 1
  {
    hide MakeRoom; hide Dead; hide OperandIds; hide WorkingSet; hide SetOf; hide SumCost; hide Sorted;
    assert Missing(c, i, s.resident) == {operand};
  }

  lemma RunStep(c: Config, i: nat, s: State)
    requires i < |c.p.insts| && Run(c, i) == Some(s) && Step(c, i, s).Some?
    ensures Run(c, i + 1) == Step(c, i, s)
    ensures i + 1 == |c.p.insts| ==> PlanOf(c).Some? && PlanOf(c).value.stats == Step(c, i, s).value.stats
  {
    hide Step;
  }

  /** An instruction that finds the device empty. */
  lemma FromEmpty(i: nat, s: State, operand: Id, result: Id)
    requires i < |TWO_SIZE_CONFIG.p.insts| && s.resident == {} && operand != result
    requires OperandIds(TWO_SIZE_CONFIG.p.insts[i]) == {operand}
    requires WorkingSet(TWO_SIZE_CONFIG.p.insts[i]) == {operand, result}
    requires TWO_SIZE_CONFIG.p.insts[i].resultId == result
    requires Cost(TWO_SIZE_CONFIG.units, operand) + Cost(TWO_SIZE_CONFIG.units, result) <= 4
    ensures MakeRoom(TWO_SIZE_CONFIG, i, s) == Some([])
  {
    var c := TWO_SIZE_CONFIG;
    var other := operand + result + 1;
    TwoSizeCosts(operand, result, other);
    hide SumCost; hide OperandIds; hide WorkingSet; hide Cost; hide MakeRoom; hide Evictions;
    MakeRoomIs(c, i, s, operand);
    EvictionsUnfold(c, i, s.lastTouch, {}, Cost(c.units, result) + SumCost(c.units, {operand}));
  }

  lemma TwoSizeStart() returns (s: State)
    ensures Run(TWO_SIZE_CONFIG, 0) == Some(s) && s.resident == {} && s.stats.prefetches == 0
  {
    s := Start;
  }

  /** The Belady plan of this program under four bytes loads four times. */
  lemma {:induction false} TwoSizePlan()
    ensures PlanOf(TWO_SIZE_CONFIG).Some? && PlanOf(TWO_SIZE_CONFIG).value.stats.prefetches == 4
  {
    hide *;
    var c := TWO_SIZE_CONFIG;
    TwoSizeIs();
    TwoSizeUses();
    TwoSizeDead();
    TwoSizeCosts(1, 2, 3);
    var s0 := TwoSizeStart();
    FromEmpty(0, s0, 1, 2);
    StepWith(c, 0, s0, 1, []);
    SetOfNothing();
    RunStep(c, 0, s0);
    var s1 := Step(c, 0, s0).value;
    assert s1.resident == {1, 2};
    MakeRoomIs(c, 1, s1, 3);
    TwoSizeCosts(3, 4, 1);
    TwoSizeEvictions(s1.lastTouch);
    StepWith(c, 1, s1, 3, [2, 1]);
    SetOfPair(2, 1);
    RunStep(c, 1, s1);
    var s2 := Step(c, 1, s1).value;
    assert s2.resident == {};
    FromEmpty(2, s2, 1, 5);
    StepWith(c, 2, s2, 1, []);
    RunStep(c, 2, s2);
    var s3 := Step(c, 2, s2).value;
    assert s3.resident == {};
    FromEmpty(3, s3, 2, 6);
    StepWith(c, 3, s3, 2, []);
    RunStep(c, 3, s3);
  }

  lemma TwoSizeIs()
    ensures TWO_SIZE_CONFIG.p == TWO_SIZE_PROGRAM && TWO_SIZE_CONFIG.budget == 4
    ensures |TWO_SIZE_PROGRAM.insts| == 4
    ensures TWO_SIZE_PROGRAM.insts[0].resultId == 2 && TWO_SIZE_PROGRAM.insts[1].resultId == 4
    ensures TWO_SIZE_PROGRAM.insts[2].resultId == 5 && TWO_SIZE_PROGRAM.insts[3].resultId == 6
  {
  }

  lemma SetOfPair(a: Id, b: Id)
    ensures SetOf([a, b]) == {a, b}
  {
    assert [a, b][0] == a && [a, b][1] == b;
  }

  /** A schedule that gives up only the large buffer loads three times. */
  const TWO_SIZE_SCHEDULE: seq<set<Id>> := [{1, 2}, {2, 3, 4}, {2, 1, 5}, {2, 6}]

  lemma ScheduleIs()
    ensures |TWO_SIZE_SCHEDULE| == 4
    ensures TWO_SIZE_SCHEDULE[0] == {1, 2} && TWO_SIZE_SCHEDULE[1] == {2, 3, 4}
    ensures TWO_SIZE_SCHEDULE[2] == {2, 1, 5} && TWO_SIZE_SCHEDULE[3] == {2, 6}
  {
  }

  lemma {:induction false} TwoSizeFits(i: nat)
    requires i < 4
    ensures |TWO_SIZE_SCHEDULE| == 4 && |TWO_SIZE_CONFIG.p.insts| == 4
    ensures WorkingSet(TWO_SIZE_CONFIG.p.insts[i]) <= TWO_SIZE_SCHEDULE[i]
    ensures SumCost(TWO_SIZE_CONFIG.units, TWO_SIZE_SCHEDULE[i]) <= 4
  {
    TwoSizeIs();
    TwoSizeUses();
    ScheduleIs();
    hide *;
    if i == 0 { TwoSizeCosts(1, 2, 3); }
    if i == 1 { TwoSizeCosts(2, 3, 4); }
    if i == 2 { TwoSizeCosts(2, 1, 5); }
    if i == 3 { TwoSizeCosts(2, 6, 1); }
  }

  lemma {:induction false} TwoSizeLoads(i: nat)
    requires i < 4
    ensures |TWO_SIZE_SCHEDULE| == 4 && |TWO_SIZE_CONFIG.p.insts| == 4
    ensures |Loaded(TWO_SIZE_CONFIG, TWO_SIZE_SCHEDULE, i)| == if i == 3 then 0 else 1
  {
    var c, r := TWO_SIZE_CONFIG, TWO_SIZE_SCHEDULE;
    TwoSizeIs();
    ScheduleIs();
    LoadedIs(c, r, i);
    DroppedIs(c, r, i);
    hide *;
    if i == 0 { assert Loaded(c, r, 0) == {1}; }
    if i == 1 { LoadsOne({1, 2}, {2, 3, 4}, 4, 3); }
    if i == 2 { LoadsOne({2, 3, 4}, {2, 1, 5}, 5, 1); }
    if i == 3 { assert Loaded(c, r, 3) == {}; }
  }

  lemma LoadsOne(held: set<Id>, next: set<Id>, result: Id, loaded: Id)
    requires loaded in next && loaded != result && loaded !in held
    requires forall x :: x in next ==> x == loaded || x == result || x in held
    ensures |next - held - {result}| == 1
  {
    assert next - held - {result} == {loaded};
  }

  lemma {:induction false} TwoSizeSchedule()
    ensures IsSchedule(TWO_SIZE_CONFIG, TWO_SIZE_SCHEDULE)
    ensures |TWO_SIZE_SCHEDULE| == 4 && Loads(TWO_SIZE_CONFIG, TWO_SIZE_SCHEDULE, 4) == 3
  {
    var c, r := TWO_SIZE_CONFIG, TWO_SIZE_SCHEDULE;
    ScheduleIs();
    TwoSizeIs();
    hide WorkingSet; hide SumCost; hide Loads; hide Loaded; hide TWO_SIZE_SCHEDULE; hide TWO_SIZE_CONFIG;
    forall i | 0 <= i < 4 ensures WorkingSet(c.p.insts[i]) <= r[i] && SumCost(c.units, r[i]) <= 4 {
      TwoSizeFits(i);
    }
    forall i | 0 <= i < 4 ensures Loads(c, r, i + 1) == Loads(c, r, i) + if i == 3 then 0 else 1 {
      TwoSizeLoads(i);
      LoadsStep(c, r, i);
    }
    assert Loads(c, r, 3) == Loads(c, r, 2) + 1 && Loads(c, r, 2) == Loads(c, r, 1) + 1;
    assert Loads(c, r, 1) == Loads(c, r, 0) + 1;
    NothingDropped(c, r);
  }

  /** Where levels differ in size, farthest-next-use is not optimal: a valid program, an accepted model and a byte
      budget under which some schedule loads less than the Belady plan. */
  lemma {:induction false} TwoSizesBreakOptimality()
    ensures Valid(TWO_SIZE_PROGRAM) && UnitsOf(Some(TWO_SIZES), TWO_SIZE_PROGRAM) == Some(TWO_SIZE_CONFIG.units)
    ensures Analysis(TWO_SIZE_PROGRAM, {}, 4, Belady, Some(TWO_SIZES)).Some?
    ensures IsSchedule(TWO_SIZE_CONFIG, TWO_SIZE_SCHEDULE) && |TWO_SIZE_SCHEDULE| == 4
    ensures Loads(TWO_SIZE_CONFIG, TWO_SIZE_SCHEDULE, 4) <
      Analysis(TWO_SIZE_PROGRAM, {}, 4, Belady, Some(TWO_SIZES)).value.stats.prefetches
  {
    TwoSizeConfigIs();
    hide *;
    TwoSizeValid();
    TwoSizeUnits();
    AnalysisIs(TWO_SIZE_PROGRAM, {}, 4, Belady, Some(TWO_SIZES));
    TwoSizePlan();
    TwoSizeSchedule();
  }

  lemma TwoSizeConfigIs()
    ensures TWO_SIZE_CONFIG == Config(TWO_SIZE_PROGRAM, {}, 4, Belady, TWO_SIZE_CONFIG.units)
    ensures |TWO_SIZE_PROGRAM.insts| == 4
  {
  }
}
