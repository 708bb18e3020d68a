/** What the movement planner computes: one planning step per instruction, folded over the program. */
module MovementPlan {
  import opened Fhn
  import opened Sets

  datatype Policy = Belady | Lru

  /** The unit a budget is counted in: one per buffer, or the bytes of a buffer's inferred level. */
  datatype Units = Slots | Bytes(bytesByLevel: seq<nat>, levelOf: map<Id, nat>)

  /** One instruction's movement: evict, alloc and prefetch run before it, free after it. */
  datatype Actions = Actions(evict: seq<Id>, alloc: seq<Id>, prefetch: seq<Id>, free: seq<Id>)

  datatype Stats = Stats(highWater: nat, allocs: nat, prefetches: nat, evicts: nat, highWaterBytes: nat)

  datatype Plan = Plan(actions: seq<Actions>, stats: Stats)

  /** Everything planning depends on. A budget of 0 means unlimited. */
  datatype Config = Config(p: Program, pinned: set<Id>, budget: nat, policy: Policy, units: Units)

  /** The planner's working state before some instruction. */
  datatype State = State(resident: set<Id>, lastTouch: map<Id, int>, actions: seq<Actions>, stats: Stats)

  const Start := State({}, map[], [], Stats(0, 0, 0, 0, 0))

  /** What it costs to hold one id on the device. */
  function Cost(u: Units, id: Id): nat {
    match u
    case Slots => 1
    case Bytes(bytesByLevel, levelOf) =>
      if id in levelOf && levelOf[id] < |bytesByLevel| then bytesByLevel[levelOf[id]] else 0
  }

  ghost function SumCost(u: Units, s: set<Id>): nat {
    if s == {} then 0 else Cost(u, Min(s)) + SumCost(u, s - {Min(s)})
  }

  /** The eviction order: the victim is the resident with the largest key, the lower id on ties. */
  function Key(c: Config, i: nat, lastTouch: map<Id, int>, id: Id): int {
    match c.policy
    case Belady => NextUse(c.p, id, i)
    case Lru => if id in lastTouch then -lastTouch[id] else 1
  }

  predicate Before(c: Config, i: nat, lastTouch: map<Id, int>, a: Id, b: Id) {
    || Key(c, i, lastTouch, a) > Key(c, i, lastTouch, b)
    || (Key(c, i, lastTouch, a) == Key(c, i, lastTouch, b) && a <= b)
  }

  ghost predicate IsVictim(c: Config, i: nat, lastTouch: map<Id, int>, candidates: set<Id>, v: Id) {
    v in candidates && forall x :: x in candidates ==> Before(c, i, lastTouch, v, x)
  }

  lemma {:induction false} VictimExists(c: Config, i: nat, lastTouch: map<Id, int>, candidates: set<Id>)
    requires candidates != {}
    ensures exists v :: IsVictim(c, i, lastTouch, candidates, v)
  {
    var x :| x in candidates;
    if candidates == {x} {
      assert IsVictim(c, i, lastTouch, candidates, x);
    } else {
      VictimExists(c, i, lastTouch, candidates - {x});
      var v :| IsVictim(c, i, lastTouch, candidates - {x}, v);
      assert forall y :: y in candidates ==> y == x || y in candidates - {x};
      assert IsVictim(c, i, lastTouch, candidates, if Before(c, i, lastTouch, x, v) then x else v);
    }
  }

  ghost function Victim(c: Config, i: nat, lastTouch: map<Id, int>, candidates: set<Id>): (v: Id)
    requires candidates != {}
    ensures IsVictim(c, i, lastTouch, candidates, v)
  {
    VictimExists(c, i, lastTouch, candidates);
    var v :| IsVictim(c, i, lastTouch, candidates, v);
    v
  }

  /** Evict until the incoming units fit; None when only the working set is left and they still do not. */
  ghost function Evictions(c: Config, i: nat, lastTouch: map<Id, int>, resident: set<Id>, incoming: nat)
    : (r: Option<seq<Id>>)
    requires i < |c.p.insts|
    decreases |resident|
  {
    var candidates := resident - WorkingSet(c.p.insts[i]);
    if SumCost(c.units, resident) + incoming <= c.budget then Some([])
    else if candidates == {} then None
    else
      var v := Victim(c, i, lastTouch, candidates);
      match Evictions(c, i, lastTouch, resident - {v}, incoming)
      case None => None
      case Some(rest) => Some([v] + rest)
  }

  /** Working-set ids whose last use has passed at instruction `i`. */
  function Dead(c: Config, i: nat): set<Id>
    requires i < |c.p.insts|
  {
    set x | x in WorkingSet(c.p.insts[i]) && x !in c.pinned &&
            (if x == c.p.insts[i].resultId then NextUse(c.p, x, 0) else NextUse(c.p, x, i + 1)) == |c.p.insts|
  }

  /** The operands that are not on the device when instruction `i` is reached. */
  function Missing(c: Config, i: nat, resident: set<Id>): set<Id>
    requires i < |c.p.insts|
  {
    OperandIds(c.p.insts[i]) - resident
  }

  /** The units instruction `i` brings in: its result and its missing operands. */
  ghost function Incoming(c: Config, i: nat, resident: set<Id>): nat
    requires i < |c.p.insts|
  {
    Cost(c.units, c.p.insts[i].resultId) + SumCost(c.units, Missing(c, i, resident))
  }

  /** The victims of instruction `i`, or None when its working set does not fit. */
  ghost function MakeRoom(c: Config, i: nat, s: State): Option<seq<Id>>
    requires i < |c.p.insts|
  {
    if c.budget == 0 then Some([])
    else if SumCost(c.units, WorkingSet(c.p.insts[i])) > c.budget then None
    else Evictions(c, i, s.lastTouch, s.resident, Incoming(c, i, s.resident))
  }

  /** The residents while instruction `i` runs, given its victims. */
  function AtDispatch(c: Config, i: nat, s: State, victims: seq<Id>): set<Id>
    requires i < |c.p.insts|
  {
    s.resident - SetOf(victims) + WorkingSet(c.p.insts[i])
  }

  function Max(a: int, b: int): int { if a >= b then a else b }

  /** The touch positions after everything in `s` is touched at `i`. */
  function Touched(before: map<Id, int>, s: set<Id>, i: int): map<Id, int> {
    before + (map x | x in s :: i)
  }

  ghost function StatsAfter(c: Config, i: nat, s: State, victims: seq<Id>): Stats
    requires i < |c.p.insts|
  {
    var device := AtDispatch(c, i, s, victims);
    Stats(
      Max(s.stats.highWater, |device|),
      s.stats.allocs + 1,
      s.stats.prefetches + |Missing(c, i, s.resident)|,
      s.stats.evicts + |victims|,
      if c.units.Slots? then s.stats.highWaterBytes else Max(s.stats.highWaterBytes, SumCost(c.units, device)))
  }

  /** One planning step. */
  ghost function Step(c: Config, i: nat, s: State): Option<State>
    requires i < |c.p.insts|
  {
    match MakeRoom(c, i, s)
    case None => None
    case Some(victims) =>
      var act := Actions(victims, [c.p.insts[i].resultId], Sorted(Missing(c, i, s.resident)), Sorted(Dead(c, i)));
      Some(State(
        AtDispatch(c, i, s, victims) - Dead(c, i),
        Touched(s.lastTouch, WorkingSet(c.p.insts[i]), i),
        s.actions + [act],
        StatsAfter(c, i, s, victims)))
  }

  /** The planner's state before instruction `i`. */
  ghost function Run(c: Config, i: nat): (r: Option<State>)
    requires i <= |c.p.insts|
  {
    if i == 0 then Some(Start)
    else
      match Run(c, i - 1)
      case None => None
      case Some(s) => Step(c, i - 1, s)
  }

  /** Inputs nothing reads, in input order: the last instruction frees them. */
  function UnusedInputs(c: Config, k: nat): seq<Id>
    requires k <= |c.p.inputs|
  {
    if k == 0 then []
    else
      UnusedInputs(c, k - 1) +
      if c.p.inputs[k - 1] !in c.pinned && NextUse(c.p, c.p.inputs[k - 1], 0) == |c.p.insts|
      then [c.p.inputs[k - 1]] else []
  }

  ghost function WithEpilogue(c: Config, actions: seq<Actions>): seq<Actions>
  {
    if actions == [] then []
    else
      var last := actions[|actions| - 1];
      actions[|actions| - 1 := last.(free := last.free + UnusedInputs(c, |c.p.inputs|))]
  }

  /** The plan of a valid program under given units, if there is one. */
  ghost function PlanOf(c: Config): Option<Plan>
  {
    match Run(c, |c.p.insts|)
    case None => None
    case Some(s) => Some(Plan(WithEpilogue(c, s.actions), s.stats))
  }
}
