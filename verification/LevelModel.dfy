/** Level inference: the level a ciphertext has when it is made, from the effects a backend declares. */
module LevelModel {
  import opened Fhn
  import opened MovementPlan

  /** What an opcode does to the least operand level; Unknown is any value outside the declared ones. */
  datatype LevelEffect = Preserve | Consume | SetParam0 | Unknown

  datatype Model = Model(freshLevel: int, bytesByLevel: seq<nat>, effects: map<Opcode, LevelEffect>)

  predicate WellFormed(m: Model) {
    && 0 <= m.freshLevel < |m.bytesByLevel|
    && forall l :: 0 <= l < |m.bytesByLevel| ==> m.bytesByLevel[l] != 0
  }

  /** The least level among the first `j` operand slots, the fresh level when they are unused. */
  function LeastLevel(m: Model, inst: Instruction, levels: map<Id, nat>, j: nat): int
    requires j <= 4 && OperandIds(inst) <= levels.Keys
  {
    if j == 0 then m.freshLevel
    else
      var before := LeastLevel(m, inst, levels, j - 1);
      if inst.operands[j - 1] == 0 then before
      else
        assert inst.operands[j - 1] in OperandIds(inst);
        if levels[inst.operands[j - 1]] < before then levels[inst.operands[j - 1]] else before
  }

  /** The level of a result, or None when the instruction breaks the model. */
  function ResultLevel(m: Model, inst: Instruction, least: int): Option<nat>
  {
    if inst.opcode !in m.effects then None
    else
      match m.effects[inst.opcode]
      case Preserve => InRange(m, least)
      case Consume => InRange(m, least - 1)
      case SetParam0 => if inst.param > least then None else InRange(m, inst.param)
      case Unknown => None
  }

  function InRange(m: Model, level: int): Option<nat> {
    if level < 0 || level > m.freshLevel then None else Some(level)
  }

  function InputLevels(m: Model, p: Program): map<Id, nat>
    requires WellFormed(m)
  {
    map x | x in p.inputs :: m.freshLevel
  }

  lemma InputsAreDefined(m: Model, p: Program)
    requires WellFormed(m)
    ensures InputLevels(m, p).Keys == DefinedBefore(p, 0)
  {
  }

  /** The levels of everything defined by the first `i` instructions. */
  function Levels(m: Model, p: Program, i: nat): (r: Option<map<Id, nat>>)
    requires WellFormed(m) && Valid(p) && i <= |p.insts|
    ensures r.Some? ==> r.value.Keys == DefinedBefore(p, i)
  {
    if i == 0 then
      InputsAreDefined(m, p);
      Some(InputLevels(m, p))
    else
      ValidAt(p, i - 1);
      DefinedBeforeGrows(p, i - 1);
      match Levels(m, p, i - 1)
      case None => None
      case Some(levels) =>
        match ResultLevel(m, p.insts[i - 1], LeastLevel(m, p.insts[i - 1], levels, 4))
        case None => None
        case Some(level) => Some(levels[p.insts[i - 1].resultId := level])
  }

  lemma {:induction false} LeastLevelIsLeast(m: Model, inst: Instruction, levels: map<Id, nat>, j: nat)
    requires j <= 4 && OperandIds(inst) <= levels.Keys
    ensures LeastLevel(m, inst, levels, j) <= m.freshLevel
    ensures forall k :: 0 <= k < j && inst.operands[k] != 0 ==>
      inst.operands[k] in levels && LeastLevel(m, inst, levels, j) <= levels[inst.operands[k]]
    ensures LeastLevel(m, inst, levels, j) == m.freshLevel
      || exists x :: x in OperandIds(inst) && levels[x] == LeastLevel(m, inst, levels, j)
  {
    if j > 0 {
      assert inst.operands[j - 1] != 0 ==> inst.operands[j - 1] in OperandIds(inst);
      LeastLevelIsLeast(m, inst, levels, j - 1);
    }
  }

  lemma {:induction false} LeastLevelIsBelow(m: Model, inst: Instruction, levels: map<Id, nat>, x: Id)
    requires OperandIds(inst) <= levels.Keys && x in OperandIds(inst)
    ensures LeastLevel(m, inst, levels, 4) <= levels[x]
  {
    LeastLevelIsLeast(m, inst, levels, 4);
    var k :| 0 <= k < 4 && inst.operands[k] == x;
  }

  // ----- any accepted trace -----

  /** One step of inference. */
  lemma LevelsStep(m: Model, p: Program, i: nat)
    requires WellFormed(m) && Valid(p) && i < |p.insts| && Levels(m, p, i + 1).Some?
    ensures Levels(m, p, i).Some? && OperandIds(p.insts[i]) <= Levels(m, p, i).value.Keys
    ensures var levels := Levels(m, p, i).value;
      var level := ResultLevel(m, p.insts[i], LeastLevel(m, p.insts[i], levels, 4));
      level.Some? && Levels(m, p, i + 1).value == levels[p.insts[i].resultId := level.value]
  {
  }

  /** Inference never revises a level. */
  lemma {:induction false} LevelsAreFinal(m: Model, p: Program, i: nat, j: nat, x: Id)
    requires WellFormed(m) && Valid(p) && i <= j <= |p.insts| && Levels(m, p, j).Some?
    requires x in DefinedBefore(p, i)
    ensures Levels(m, p, i).Some? && x in Levels(m, p, j).value
    ensures Levels(m, p, j).value[x] == Levels(m, p, i).value[x]
    decreases j - i
  {
    hide Levels; hide Valid; hide WellFormed; hide DefinedBefore; hide LeastLevel; hide ResultLevel; hide OperandIds;
    if i < j {
      LevelsStep(m, p, j - 1);
      DefinedBeforeMonotone(p, i, j - 1);
      ValidAt(p, j - 1);
      LevelsAreFinal(m, p, i, j - 1, x);
    } else {
      LevelsDefined(m, p, i);
    }
  }

  lemma {:induction false} LevelsDefined(m: Model, p: Program, i: nat)
    requires WellFormed(m) && Valid(p) && i <= |p.insts| && Levels(m, p, i).Some?
    ensures DefinedBefore(p, i) <= Levels(m, p, i).value.Keys
  {
    hide Valid; hide LeastLevel; hide ResultLevel;
    if i > 0 {
      LevelsDefined(m, p, i - 1);
      DefinedBeforeGrows(p, i - 1);
      hide DefinedBefore;
    }
  }

  /** The level a result gets, from the levels its operands have. */
  lemma {:induction false} LevelOfResult(m: Model, p: Program, i: nat)
    requires WellFormed(m) && Valid(p) && i < |p.insts| && Levels(m, p, |p.insts|).Some?
    ensures Levels(m, p, i).Some? && OperandIds(p.insts[i]) <= Levels(m, p, i).value.Keys
    ensures p.insts[i].resultId in Levels(m, p, |p.insts|).value
    ensures ResultLevel(m, p.insts[i], LeastLevel(m, p.insts[i], Levels(m, p, i).value, 4))
      == Some(Levels(m, p, |p.insts|).value[p.insts[i].resultId])
  {
    hide Levels; hide Valid; hide WellFormed; hide LeastLevel; hide ResultLevel;
    DefinedBeforeGrows(p, i);
    hide DefinedBefore;
    LevelsAreFinal(m, p, i + 1, |p.insts|, p.insts[i].resultId);
    LevelsStep(m, p, i);
  }

  /** Levels stay in range and never rise along a def-use edge, whatever the opcodes' effects. */
  lemma {:induction false} LevelsNeverRise(m: Model, p: Program, i: nat, x: Id)
    requires WellFormed(m) && Valid(p) && i < |p.insts| && Levels(m, p, |p.insts|).Some?
    requires x in OperandIds(p.insts[i])
    ensures x in Levels(m, p, |p.insts|).value && p.insts[i].resultId in Levels(m, p, |p.insts|).value
    ensures Levels(m, p, |p.insts|).value[p.insts[i].resultId] <= Levels(m, p, |p.insts|).value[x] <= m.freshLevel
  {
    hide *;
    LevelOfResult(m, p, i);
    ValidAt(p, i);
    LevelsAreFinal(m, p, i, |p.insts|, x);
    LevelsDefined(m, p, i);
    var least := LeastLevel(m, p.insts[i], Levels(m, p, i).value, 4);
    LeastLevelIsBelow(m, p.insts[i], Levels(m, p, i).value, x);
    ResultInRange(m, p.insts[i], least);
    LevelsInRange(m, p, i);
  }

  lemma ResultInRange(m: Model, inst: Instruction, least: int)
    requires ResultLevel(m, inst, least).Some?
    ensures ResultLevel(m, inst, least).value <= least && ResultLevel(m, inst, least).value <= m.freshLevel
  {
  }

  lemma {:induction false} LevelsInRange(m: Model, p: Program, i: nat)
    requires WellFormed(m) && Valid(p) && i <= |p.insts| && Levels(m, p, i).Some?
    ensures forall x :: x in Levels(m, p, i).value ==> Levels(m, p, i).value[x] <= m.freshLevel
  {
    hide *;
    if i == 0 {
      InputsInRange(m, p);
    } else {
      LevelsStep(m, p, i - 1);
      LevelsInRange(m, p, i - 1);
      ResultInRange(m, p.insts[i - 1], LeastLevel(m, p.insts[i - 1], Levels(m, p, i - 1).value, 4));
    }
  }

  lemma InputsInRange(m: Model, p: Program)
    requires WellFormed(m) && Valid(p)
    ensures Levels(m, p, 0).Some?
    ensures forall x :: x in Levels(m, p, 0).value ==> Levels(m, p, 0).value[x] <= m.freshLevel
  {
  }

  // ----- depth counting -----

  /** Every opcode the program uses has a declared, known effect. */
  ghost predicate AllKnown(m: Model, p: Program) {
    forall i :: 0 <= i < |p.insts| ==> p.insts[i].opcode in m.effects && m.effects[p.insts[i].opcode] != Unknown
  }

  /** The instruction sets its result's level to params[0]. */
  predicate SetsLevel(m: Model, inst: Instruction) {
    inst.opcode in m.effects && m.effects[inst.opcode] == SetParam0
  }

  /** A chain of instructions, each reading the previous one's result, since a level was last set. */
  ghost predicate IsChain(m: Model, p: Program, chain: seq<nat>) {
    && chain != []
    && (forall k :: 0 <= k < |chain| ==> chain[k] < |p.insts|)
    && (forall k :: 0 < k < |chain| ==> p.insts[chain[k - 1]].resultId in OperandIds(p.insts[chain[k]]))
    && (forall k :: 0 < k < |chain| ==> !SetsLevel(m, p.insts[chain[k]]))
  }

  /** How far below the fresh level an instruction starts a chain, and how far it takes one down. */
  function Drop(m: Model, inst: Instruction): int {
    if SetsLevel(m, inst) then m.freshLevel - inst.param
    else if inst.opcode in m.effects && m.effects[inst.opcode] == Consume then 1
    else 0
  }

  /** How far below the fresh level a chain ends. */
  function Weight(m: Model, p: Program, chain: seq<nat>): int
    requires forall k :: 0 <= k < |chain| ==> chain[k] < |p.insts|
  {
    if chain == [] then 0
    else Weight(m, p, chain[..|chain| - 1]) + Drop(m, p.insts[chain[|chain| - 1]])
  }

  ghost predicate EndsAt(m: Model, p: Program, chain: seq<nat>, i: nat) {
    IsChain(m, p, chain) && chain[|chain| - 1] == i
  }

  lemma ChainFront(m: Model, p: Program, chain: seq<nat>)
    requires IsChain(m, p, chain) && |chain| > 1
    ensures EndsAt(m, p, chain[..|chain| - 1], chain[|chain| - 2])
    ensures p.insts[chain[|chain| - 2]].resultId in OperandIds(p.insts[chain[|chain| - 1]])
    ensures !SetsLevel(m, p.insts[chain[|chain| - 1]])
  {
    hide OperandIds; hide SetsLevel;
    var k := |chain| - 1;
    assert p.insts[chain[k - 1]].resultId in OperandIds(p.insts[chain[k]]);
  }

  lemma ExtendChain(m: Model, p: Program, chain: seq<nat>, j: nat, i: nat)
    requires EndsAt(m, p, chain, j) && i < |p.insts| && p.insts[j].resultId in OperandIds(p.insts[i])
    requires !SetsLevel(m, p.insts[i])
    ensures EndsAt(m, p, chain + [i], i)
    ensures Weight(m, p, chain + [i]) == Weight(m, p, chain) + Drop(m, p.insts[i])
  {
    hide OperandIds; hide SetsLevel; hide Drop;
    assert (chain + [i])[..|chain + [i]| - 1] == chain;
  }

  lemma SingletonChain(m: Model, p: Program, i: nat)
    requires i < |p.insts|
    ensures EndsAt(m, p, [i], i) && Weight(m, p, [i]) == Drop(m, p.insts[i])
  {
    hide OperandIds; hide SetsLevel; hide Drop;
    assert [i][..|[i]| - 1] == [];
  }

  /** A result's level, in terms of how far its instruction takes a chain down. */
  lemma ResultLevelDrops(m: Model, inst: Instruction, least: int)
    requires ResultLevel(m, inst, least).Some?
    ensures inst.opcode in m.effects && m.effects[inst.opcode] != Unknown
    ensures ResultLevel(m, inst, least).value ==
      if SetsLevel(m, inst) then m.freshLevel - Drop(m, inst) else least - Drop(m, inst)
    ensures SetsLevel(m, inst) ==> inst.param <= least
  {
  }

  /** No chain ends further below the fresh level than its last result. */
  lemma {:induction false} ChainsAreShort(m: Model, p: Program, chain: seq<nat>, i: nat)
    requires WellFormed(m) && Valid(p) && Levels(m, p, |p.insts|).Some?
    requires EndsAt(m, p, chain, i)
    ensures i < |p.insts| && p.insts[i].resultId in Levels(m, p, |p.insts|).value
    ensures Weight(m, p, chain) + Levels(m, p, |p.insts|).value[p.insts[i].resultId] <= m.freshLevel
    decreases |chain|
  {
    hide *;
    ChainEnd(m, p, chain, i);
    LevelOfResult(m, p, i);
    ValidAt(p, i);
    var least := LeastLevel(m, p.insts[i], Levels(m, p, i).value, 4);
    LeastLevelIsLeast(m, p.insts[i], Levels(m, p, i).value, 4);
    ResultLevelDrops(m, p.insts[i], least);
    if |chain| == 1 {
      assert chain == [i];
      SingletonChain(m, p, i);
    } else {
      var front, j := chain[..|chain| - 1], chain[|chain| - 2];
      ChainFrontOf(m, p, chain, i);
      WeightOf(m, p, chain);
      ChainsAreShort(m, p, front, j);
      LevelsAreFinal(m, p, i, |p.insts|, p.insts[j].resultId);
      LeastLevelIsBelow(m, p.insts[i], Levels(m, p, i).value, p.insts[j].resultId);
    }
  }

  lemma ChainFrontOf(m: Model, p: Program, chain: seq<nat>, i: nat)
    requires EndsAt(m, p, chain, i) && |chain| > 1
    ensures chain[|chain| - 2] < |p.insts| && EndsAt(m, p, chain[..|chain| - 1], chain[|chain| - 2])
    ensures i < |p.insts| && p.insts[chain[|chain| - 2]].resultId in OperandIds(p.insts[i])
    ensures !SetsLevel(m, p.insts[i])
  {
    hide OperandIds; hide SetsLevel;
    ChainFront(m, p, chain);
  }

  lemma WeightOf(m: Model, p: Program, chain: seq<nat>)
    requires chain != [] && forall k :: 0 <= k < |chain| ==> chain[k] < |p.insts|
    ensures Weight(m, p, chain) == Weight(m, p, chain[..|chain| - 1]) + Drop(m, p.insts[chain[|chain| - 1]])
  {
    hide Drop;
  }

  /** `chain` ends at the definition of `x` and accounts for every level `x` has lost; an input has lost none. */
  ghost predicate Explains(m: Model, p: Program, i: nat, x: Id, level: nat, chain: seq<nat>) {
    if x in p.inputs then level == m.freshLevel
    else
      && chain != [] && EndsAt(m, p, chain, chain[|chain| - 1]) && chain[|chain| - 1] < i
      && p.insts[chain[|chain| - 1]].resultId == x
      && Weight(m, p, chain) + level == m.freshLevel
  }

  lemma {:induction false} DeepestChain(m: Model, p: Program, i: nat, x: Id) returns (chain: seq<nat>)
    requires WellFormed(m) && Valid(p) && i <= |p.insts| && Levels(m, p, i).Some?
    requires x in DefinedBefore(p, i)
    ensures Explains(m, p, i, x, Levels(m, p, i).value[x], chain)
    decreases i, 0
  {
    hide Levels; hide Valid; hide WellFormed; hide LeastLevel; hide Weight; hide EndsAt; hide Drop; hide SetsLevel;
    hide ResultLevel;
    if i == 0 {
      chain := [];
      InputsAreFresh(m, p, x);
    } else {
      LevelsStep(m, p, i - 1);
      if x != p.insts[i - 1].resultId {
        chain := DeepestChain(m, p, i - 1, x);
      } else {
        chain := ExtendDeepest(m, p, i - 1);
        hide DefinedBefore;
        FreshResult(p, i - 1);
        ChainEnd(m, p, chain, i - 1);
        ResultLevelDrops(m, p.insts[i - 1], LeastLevel(m, p.insts[i - 1], Levels(m, p, i - 1).value, 4));
      }
    }
  }

  lemma ChainEnd(m: Model, p: Program, chain: seq<nat>, i: nat)
    requires EndsAt(m, p, chain, i)
    ensures chain != [] && chain[|chain| - 1] == i && IsChain(m, p, chain)
    ensures forall k :: 0 <= k < |chain| ==> chain[k] < |p.insts|
  {
    hide OperandIds; hide SetsLevel;
  }

  lemma FreshResult(p: Program, i: nat)
    requires Valid(p) && i < |p.insts|
    ensures p.insts[i].resultId !in p.inputs
  {
  }

  /** The chain that makes instruction `i` as deep as it is. */
  lemma {:induction false} ExtendDeepest(m: Model, p: Program, i: nat) returns (chain: seq<nat>)
    requires WellFormed(m) && Valid(p) && i < |p.insts| && Levels(m, p, i).Some?
    ensures EndsAt(m, p, chain, i)
    ensures OperandIds(p.insts[i]) <= Levels(m, p, i).value.Keys
    ensures Weight(m, p, chain) == Drop(m, p.insts[i]) +
      if SetsLevel(m, p.insts[i]) then 0
      else m.freshLevel - LeastLevel(m, p.insts[i], Levels(m, p, i).value, 4)
    decreases i, 2
  {
    hide *;
    ValidAt(p, i);
    LevelsDefined(m, p, i);
    var inst, levels := p.insts[i], Levels(m, p, i).value;
    var least := LeastLevel(m, inst, levels, 4);
    LeastLevelIsLeast(m, inst, levels, 4);
    SingletonChain(m, p, i);
    chain := [i];
    if !SetsLevel(m, inst) && least != m.freshLevel {
      var x :| x in OperandIds(inst) && levels[x] == least;
      chain := ExtendThrough(m, p, i, x);
    }
  }

  /** A chain through an operand whose level explains the result's. */
  lemma {:induction false} ExtendThrough(m: Model, p: Program, i: nat, x: Id) returns (chain: seq<nat>)
    requires WellFormed(m) && Valid(p) && i < |p.insts| && Levels(m, p, i).Some? && !SetsLevel(m, p.insts[i])
    requires x in OperandIds(p.insts[i]) && x in Levels(m, p, i).value && Levels(m, p, i).value[x] != m.freshLevel
    ensures EndsAt(m, p, chain, i)
    ensures Weight(m, p, chain) + Levels(m, p, i).value[x] == m.freshLevel + Drop(m, p.insts[i])
    decreases i, 1
  {
    hide *;
    ValidAt(p, i);
    var front := DeepestChain(m, p, i, x);
    ExplainsMeans(m, p, i, x, Levels(m, p, i).value[x], front);
    ExtendChain(m, p, front, front[|front| - 1], i);
    chain := front + [i];
  }

  lemma ExplainsMeans(m: Model, p: Program, i: nat, x: Id, level: nat, chain: seq<nat>)
    requires Explains(m, p, i, x, level, chain) && i <= |p.insts|
    ensures level == m.freshLevel ||
      (&& chain != [] && EndsAt(m, p, chain, chain[|chain| - 1]) && chain[|chain| - 1] < i
       && (forall k :: 0 <= k < |chain| ==> chain[k] < |p.insts|)
       && p.insts[chain[|chain| - 1]].resultId == x && Weight(m, p, chain) + level == m.freshLevel)
  {
    hide Weight; hide OperandIds; hide SetsLevel;
  }

  /** Setting a level does not raise it: params[0] is at most what every chain to an operand leaves. */
  ghost predicate NeverRaises(m: Model, p: Program, i: nat)
    requires i < |p.insts|
  {
    && p.insts[i].param <= m.freshLevel
    && forall chain, j: nat ::
         EndsAt(m, p, chain, j) && j < |p.insts| && p.insts[j].resultId in OperandIds(p.insts[i]) ==>
           p.insts[i].param + Weight(m, p, chain) <= m.freshLevel
  }

  /** No chain falls below level 0, and no level is set above its operands'. */
  ghost predicate StaysInRange(m: Model, p: Program) {
    && AllKnown(m, p)
    && (forall chain :: IsChain(m, p, chain) ==> Weight(m, p, chain) <= m.freshLevel)
    && (forall i :: 0 <= i < |p.insts| && SetsLevel(m, p.insts[i]) ==> NeverRaises(m, p, i))
  }

  lemma StaysInRangeAt(m: Model, p: Program, i: nat)
    requires StaysInRange(m, p) && i < |p.insts|
    ensures p.insts[i].opcode in m.effects && m.effects[p.insts[i].opcode] != Unknown
    ensures SetsLevel(m, p.insts[i]) ==> NeverRaises(m, p, i)
    ensures forall chain :: EndsAt(m, p, chain, i) ==>
      (forall k :: 0 <= k < |chain| ==> chain[k] < |p.insts|) && Weight(m, p, chain) <= m.freshLevel
  {
    hide SetsLevel; hide NeverRaises; hide Weight; hide OperandIds;
  }

  lemma NeverRaisesMeans(m: Model, p: Program, i: nat, chain: seq<nat>, j: nat)
    requires i < |p.insts| && j < |p.insts| && NeverRaises(m, p, i)
    ensures p.insts[i].param <= m.freshLevel
    ensures EndsAt(m, p, chain, j) && p.insts[j].resultId in OperandIds(p.insts[i]) ==>
      (forall k :: 0 <= k < |chain| ==> chain[k] < |p.insts|) &&
      p.insts[i].param + Weight(m, p, chain) <= m.freshLevel
  {
    hide Weight; hide OperandIds; hide SetsLevel;
  }

  /** Where nothing raises, a set level is at most the least operand level. */
  lemma {:induction false} SetBelowLeast(m: Model, p: Program, i: nat)
    requires WellFormed(m) && Valid(p) && i < |p.insts| && Levels(m, p, i).Some? && NeverRaises(m, p, i)
    ensures OperandIds(p.insts[i]) <= Levels(m, p, i).value.Keys
    ensures p.insts[i].param <= LeastLevel(m, p.insts[i], Levels(m, p, i).value, 4)
  {
    hide *;
    ValidAt(p, i);
    LevelsDefined(m, p, i);
    var inst, levels := p.insts[i], Levels(m, p, i).value;
    LeastLevelIsLeast(m, inst, levels, 4);
    NeverRaisesMeans(m, p, i, [], i);
    if LeastLevel(m, inst, levels, 4) != m.freshLevel {
      var x :| x in OperandIds(inst) && levels[x] == LeastLevel(m, inst, levels, 4);
      var front := DeepestChain(m, p, i, x);
      ExplainsMeans(m, p, i, x, levels[x], front);
      NeverRaisesMeans(m, p, i, front, front[|front| - 1]);
    }
  }

  lemma {:induction false} AcceptedIfInRange(m: Model, p: Program, i: nat)
    requires WellFormed(m) && Valid(p) && i <= |p.insts| && StaysInRange(m, p)
    ensures Levels(m, p, i).Some?
  {
    hide *;
    if i == 0 {
      LevelsStart(m, p);
    } else {
      AcceptedIfInRange(m, p, i - 1);
      var inst, levels := p.insts[i - 1], Levels(m, p, i - 1).value;
      var chain := ExtendDeepest(m, p, i - 1);
      var least := LeastLevel(m, inst, levels, 4);
      LeastLevelIsLeast(m, inst, levels, 4);
      StaysInRangeAt(m, p, i - 1);
      if SetsLevel(m, inst) { SetBelowLeast(m, p, i - 1); }
      InRangeLevel(m, inst, least);
      LevelsGoOn(m, p, i - 1);
    }
  }

  lemma LevelsStart(m: Model, p: Program)
    requires WellFormed(m) && Valid(p)
    ensures Levels(m, p, 0).Some?
  {
  }

  /** A known effect is rejected only for want of a level, or for raising one. */
  lemma InRangeLevel(m: Model, inst: Instruction, least: int)
    requires inst.opcode in m.effects && m.effects[inst.opcode] != Unknown && least <= m.freshLevel
    requires if SetsLevel(m, inst) then Drop(m, inst) <= m.freshLevel && inst.param <= least
      else Drop(m, inst) + m.freshLevel - least <= m.freshLevel
    ensures ResultLevel(m, inst, least).Some?
  {
  }

  lemma LevelsGoOn(m: Model, p: Program, i: nat)
    requires WellFormed(m) && Valid(p) && i < |p.insts| && Levels(m, p, i).Some?
    requires OperandIds(p.insts[i]) <= Levels(m, p, i).value.Keys
    requires ResultLevel(m, p.insts[i], LeastLevel(m, p.insts[i], Levels(m, p, i).value, 4)).Some?
    ensures Levels(m, p, i + 1).Some?
  {
    hide Valid; hide LeastLevel; hide ResultLevel;
  }

  /** What inference accepts stays in range. */
  lemma {:induction false} AcceptedStaysInRange(m: Model, p: Program)
    requires WellFormed(m) && Valid(p) && Levels(m, p, |p.insts|).Some?
    ensures StaysInRange(m, p)
  {
    hide Levels; hide Weight; hide WellFormed; hide Valid; hide LeastLevel; hide ResultLevel; hide IsChain;
    hide SetsLevel; hide OperandIds; hide Drop;
    forall chain | IsChain(m, p, chain)
      ensures (forall k :: 0 <= k < |chain| ==> chain[k] < |p.insts|) && Weight(m, p, chain) <= m.freshLevel
    {
      ChainIsNonempty(m, p, chain);
      ChainsAreShort(m, p, chain, chain[|chain| - 1]);
    }
    forall i | 0 <= i < |p.insts|
      ensures p.insts[i].opcode in m.effects && m.effects[p.insts[i].opcode] != Unknown
      ensures SetsLevel(m, p.insts[i]) ==> NeverRaises(m, p, i)
    {
      LevelOfResult(m, p, i);
      ResultLevelDrops(m, p.insts[i], LeastLevel(m, p.insts[i], Levels(m, p, i).value, 4));
      if SetsLevel(m, p.insts[i]) { SetNeverRaises(m, p, i); }
    }
  }

  lemma {:induction false} SetNeverRaises(m: Model, p: Program, i: nat)
    requires WellFormed(m) && Valid(p) && Levels(m, p, |p.insts|).Some? && i < |p.insts| && SetsLevel(m, p.insts[i])
    ensures NeverRaises(m, p, i)
  {
    hide Levels; hide Weight; hide WellFormed; hide Valid; hide LeastLevel; hide ResultLevel; hide IsChain;
    hide SetsLevel; hide OperandIds; hide Drop; hide EndsAt;
    LevelOfResult(m, p, i);
    ValidAt(p, i);
    var least := LeastLevel(m, p.insts[i], Levels(m, p, i).value, 4);
    LeastLevelIsLeast(m, p.insts[i], Levels(m, p, i).value, 4);
    ResultLevelDrops(m, p.insts[i], least);
    forall chain, j: nat | EndsAt(m, p, chain, j) && j < |p.insts| && p.insts[j].resultId in OperandIds(p.insts[i])
      ensures (forall k :: 0 <= k < |chain| ==> chain[k] < |p.insts|)
      ensures p.insts[i].param + Weight(m, p, chain) <= m.freshLevel
    {
      ChainEnd(m, p, chain, j);
      ChainsAreShort(m, p, chain, j);
      LevelsAreFinal(m, p, i, |p.insts|, p.insts[j].resultId);
      LeastLevelIsBelow(m, p.insts[i], Levels(m, p, i).value, p.insts[j].resultId);
    }
  }

  /** Level inference is depth counting. It accepts exactly when every opcode's effect is declared and known, no
      def-use chain since a level was last set consumes more than was left, and no level is set above what its
      operands have. */
  lemma {:induction false} AcceptedIffInRange(m: Model, p: Program)
    requires WellFormed(m) && Valid(p)
    ensures Levels(m, p, |p.insts|).Some? <==> StaysInRange(m, p)
  {
    hide Levels; hide StaysInRange; hide Valid; hide WellFormed;
    if StaysInRange(m, p) {
      AcceptedIfInRange(m, p, |p.insts|);
    }
    if Levels(m, p, |p.insts|).Some? {
      AcceptedStaysInRange(m, p);
    }
  }

  lemma ChainIsNonempty(m: Model, p: Program, chain: seq<nat>)
    requires IsChain(m, p, chain)
    ensures chain != [] && EndsAt(m, p, chain, chain[|chain| - 1])
    ensures forall k :: 0 <= k < |chain| ==> chain[k] < |p.insts|
  {
    hide OperandIds; hide SetsLevel;
  }

  /** A result's level is the fresh level less the furthest any chain ending at it falls; a level that is set is
      what its instruction says. */
  lemma {:induction false} LevelIsDepth(m: Model, p: Program, i: nat) returns (deepest: seq<nat>)
    requires WellFormed(m) && Valid(p)
    requires i < |p.insts| && Levels(m, p, |p.insts|).Some?
    ensures p.insts[i].resultId in Levels(m, p, |p.insts|).value
    ensures EndsAt(m, p, deepest, i)
    ensures Levels(m, p, |p.insts|).value[p.insts[i].resultId] == m.freshLevel - Weight(m, p, deepest)
    ensures forall chain :: EndsAt(m, p, chain, i) ==> Weight(m, p, chain) <= Weight(m, p, deepest)
    ensures SetsLevel(m, p.insts[i]) ==> Levels(m, p, |p.insts|).value[p.insts[i].resultId] == p.insts[i].param
  {
    hide *;
    LevelOfResult(m, p, i);
    deepest := ExtendDeepest(m, p, i);
    ResultLevelDrops(m, p.insts[i], LeastLevel(m, p.insts[i], Levels(m, p, i).value, 4));
    DropIs(m, p.insts[i]);
    ChainEnd(m, p, deepest, i);
    forall chain | EndsAt(m, p, chain, i)
      ensures (forall k :: 0 <= k < |chain| ==> chain[k] < |p.insts|) && Weight(m, p, chain) <= Weight(m, p, deepest)
    {
      ChainEnd(m, p, chain, i);
      ChainsAreShort(m, p, chain, i);
    }
  }

  lemma DropIs(m: Model, inst: Instruction)
    ensures SetsLevel(m, inst) ==> Drop(m, inst) == m.freshLevel - inst.param
  {
  }

  // ----- the units a level trace gives -----

  /** The cost units of byte-mode planning, if the model and the program's level trace are accepted. */
  function UnitsOf(m: Option<Model>, p: Program): Option<Units>
    requires Valid(p)
  {
    match m
    case None => Some(Slots)
    case Some(model) =>
      if !WellFormed(model) then None
      else
        match Levels(model, p, |p.insts|)
        case None => None
        case Some(levels) => Some(Bytes(model.bytesByLevel, levels))
  }

  /** `least` is the least level of the operands, and the fresh level if none is lower. */
  ghost predicate IsLeastOperand(m: Model, inst: Instruction, levels: map<Id, nat>, least: int)
    requires OperandIds(inst) <= levels.Keys
  {
    && least <= m.freshLevel && (forall x :: x in OperandIds(inst) ==> least <= levels[x])
    && (least == m.freshLevel || exists x :: x in OperandIds(inst) && levels[x] == least)
  }

  /** What the declared effect of an instruction asks of its result's level: PRESERVE keeps the least operand
      level, CONSUME is one below it, SET_PARAM0 is exactly params[0] and not above it; no other effect is allowed,
      and no level outside the model's. */
  ghost predicate Obeys(m: Model, inst: Instruction, least: int, level: int) {
    && 0 <= level <= m.freshLevel
    && inst.opcode in m.effects
    && match m.effects[inst.opcode]
       case Preserve => level == least
       case Consume => level == least - 1
       case SetParam0 => level == inst.param && inst.param <= least
       case Unknown => false
  }

  lemma ResultLevelObeys(m: Model, inst: Instruction, least: int)
    ensures forall level :: ResultLevel(m, inst, least) == Some(level) <==> Obeys(m, inst, least, level)
  {
  }

  ghost predicate RuleHolds(m: Model, inst: Instruction, levels: map<Id, nat>) {
    && OperandIds(inst) <= levels.Keys && inst.resultId in levels
    && exists least :: IsLeastOperand(m, inst, levels, least) && Obeys(m, inst, least, levels[inst.resultId])
  }

  lemma {:induction false} LeastLevelIsOperand(m: Model, inst: Instruction, levels: map<Id, nat>, least: int)
    requires OperandIds(inst) <= levels.Keys
    ensures IsLeastOperand(m, inst, levels, least) <==> least == LeastLevel(m, inst, levels, 4)
  {
    LeastLevelIsLeast(m, inst, levels, 4);
    forall x | x in OperandIds(inst) ensures LeastLevel(m, inst, levels, 4) <= levels[x] {
      LeastLevelIsBelow(m, inst, levels, x);
    }
    hide LeastLevel; hide OperandIds;
  }

  /** The rule of an instruction is what inference computes. */
  lemma {:induction false} RuleIsResult(m: Model, inst: Instruction, levels: map<Id, nat>)
    requires OperandIds(inst) <= levels.Keys && inst.resultId in levels
    ensures RuleHolds(m, inst, levels) <==>
      ResultLevel(m, inst, LeastLevel(m, inst, levels, 4)) == Some(levels[inst.resultId])
  {
    hide LeastLevel; hide OperandIds; hide ResultLevel; hide Obeys; hide IsLeastOperand;
    var least := LeastLevel(m, inst, levels, 4);
    forall other { LeastLevelIsOperand(m, inst, levels, other); }
    ResultLevelObeys(m, inst, least);
    assert IsLeastOperand(m, inst, levels, least);
  }

  /** A level assignment that obeys the model's rules, stated without inference. */
  ghost predicate IsLevelTrace(m: Model, p: Program, levels: map<Id, nat>)
    requires Valid(p)
  {
    && Defs(p) <= levels.Keys
    && (forall x :: x in p.inputs ==> x in levels && levels[x] == m.freshLevel)
    && (forall i :: 0 <= i < |p.insts| ==> RuleHolds(m, p.insts[i], levels))
  }

  lemma {:induction false} LeastLevelAgrees(m: Model, inst: Instruction, a: map<Id, nat>, b: map<Id, nat>, j: nat)
    requires j <= 4 && OperandIds(inst) <= a.Keys && OperandIds(inst) <= b.Keys
    requires forall x :: x in OperandIds(inst) ==> a[x] == b[x]
    ensures LeastLevel(m, inst, a, j) == LeastLevel(m, inst, b, j)
  {
    if j > 0 {
      assert inst.operands[j - 1] != 0 ==> inst.operands[j - 1] in OperandIds(inst);
      LeastLevelAgrees(m, inst, a, b, j - 1);
    }
  }

  lemma LevelsAdvance(m: Model, p: Program, i: nat)
    requires WellFormed(m) && Valid(p) && i < |p.insts| && Levels(m, p, i).Some?
    requires OperandIds(p.insts[i]) <= Levels(m, p, i).value.Keys
    requires ResultLevel(m, p.insts[i], LeastLevel(m, p.insts[i], Levels(m, p, i).value, 4)).Some?
    ensures Levels(m, p, i + 1) == Some(Levels(m, p, i).value[p.insts[i].resultId :=
      ResultLevel(m, p.insts[i], LeastLevel(m, p.insts[i], Levels(m, p, i).value, 4)).value])
  {
  }

  lemma TraceStart(m: Model, p: Program, levels: map<Id, nat>)
    requires WellFormed(m) && Valid(p) && IsLevelTrace(m, p, levels)
    ensures Levels(m, p, 0).Some?
    ensures forall x :: x in DefinedBefore(p, 0) ==> x in levels && Levels(m, p, 0).value[x] == levels[x]
  {
  }

  lemma TraceStep(m: Model, p: Program, levels: map<Id, nat>, i: nat)
    requires WellFormed(m) && Valid(p) && IsLevelTrace(m, p, levels) && i < |p.insts|
    requires Levels(m, p, i).Some?
    ensures OperandIds(p.insts[i]) <= DefinedBefore(p, i) == Levels(m, p, i).value.Keys
    ensures OperandIds(p.insts[i]) <= levels.Keys && p.insts[i].resultId in levels
    ensures ResultLevel(m, p.insts[i], LeastLevel(m, p.insts[i], levels, 4)) == Some(levels[p.insts[i].resultId])
  {
    hide LeastLevel; hide ResultLevel; hide RuleHolds; hide Levels; hide DefinedBefore; hide OperandIds;
    ValidAt(p, i);
    LevelsDefined(m, p, i);
    assert RuleHolds(m, p.insts[i], levels);
    RuleHoldsWhere(m, p.insts[i], levels);
    RuleIsResult(m, p.insts[i], levels);
  }

  lemma RuleHoldsWhere(m: Model, inst: Instruction, levels: map<Id, nat>)
    requires RuleHolds(m, inst, levels)
    ensures OperandIds(inst) <= levels.Keys && inst.resultId in levels
  {
    hide IsLeastOperand; hide Obeys; hide OperandIds;
  }

  /** Inference finds the level trace whenever there is one. */
  lemma {:induction false} InferenceFindsTrace(m: Model, p: Program, levels: map<Id, nat>, i: nat)
    requires WellFormed(m) && Valid(p) && i <= |p.insts| && IsLevelTrace(m, p, levels)
    ensures Levels(m, p, i).Some?
    ensures forall x :: x in DefinedBefore(p, i) ==> x in levels && Levels(m, p, i).value[x] == levels[x]
  {
    hide Levels; hide LeastLevel; hide ResultLevel; hide WellFormed; hide Valid; hide IsLevelTrace;
    TraceStart(m, p, levels);
    if i > 0 {
      InferenceFindsTrace(m, p, levels, i - 1);
      TraceStep(m, p, levels, i - 1);
      LeastLevelAgrees(m, p.insts[i - 1], Levels(m, p, i - 1).value, levels, 4);
      LevelsAdvance(m, p, i - 1);
      DefinedBeforeGrows(p, i - 1);
    }
  }

  /** What inference finds is a level trace. */
  lemma {:induction false} InferenceIsTrace(m: Model, p: Program)
    requires WellFormed(m) && Valid(p) && Levels(m, p, |p.insts|).Some?
    ensures IsLevelTrace(m, p, Levels(m, p, |p.insts|).value)
  {
    hide Levels; hide LeastLevel; hide ResultLevel; hide RuleHolds;
    var levels := Levels(m, p, |p.insts|).value;
    forall i | 0 <= i < |p.insts|
      ensures RuleHolds(m, p.insts[i], levels)
    {
      LevelOfResult(m, p, i);
      DefinedBeforeMonotone(p, i, |p.insts|);
      forall x | x in OperandIds(p.insts[i]) ensures levels[x] == Levels(m, p, i).value[x] {
        LevelsAreFinal(m, p, i, |p.insts|, x);
      }
      LeastLevelAgrees(m, p.insts[i], Levels(m, p, i).value, levels, 4);
      RuleIsResult(m, p.insts[i], levels);
    }
    forall x | x in p.inputs ensures levels[x] == m.freshLevel {
      assert x in DefinedBefore(p, 0);
      LevelsAreFinal(m, p, 0, |p.insts|, x);
      InputsAreFresh(m, p, x);
    }
  }

  lemma InputsAreFresh(m: Model, p: Program, x: Id)
    requires WellFormed(m) && Valid(p) && x in p.inputs
    ensures Levels(m, p, 0).value[x] == m.freshLevel
  {
  }

  /** Byte-mode planning has its units exactly when the model is well formed and the program has a trace. */
  lemma {:induction false} UnitsExistIff(m: Model, p: Program)
    requires Valid(p)
    ensures UnitsOf(Some(m), p).Some? <==>
      0 <= m.freshLevel < |m.bytesByLevel| && 0 !in m.bytesByLevel && exists levels :: IsLevelTrace(m, p, levels)
  {
    hide Levels; hide IsLevelTrace; hide Valid;
    if WellFormed(m) {
      if Levels(m, p, |p.insts|).Some? {
        InferenceIsTrace(m, p);
      }
      if levels :| IsLevelTrace(m, p, levels) {
        InferenceFindsTrace(m, p, levels, |p.insts|);
      }
    }
  }
}
