# Fhenomenon, modelled and verified in Dafny

Fhenomenon records arithmetic on encrypted integers, compiles the recording to a flat program over buffer
ids, plans when each buffer is on the device, and runs the program on a backend. This project models that
pipeline and the reference backend, and proves what each part promises:

- **The program format** (`Fhn`): straight-line, single-assignment instructions over ids, and their values under
  any kernel.
- **The movement planner** (`MovementPlan` says what it computes; `Analyzer` is the imperative algorithm, proved to
  compute exactly that). Proved about it: exact feasibility and the residency invariant (`Residency`), optimality
  of Belady eviction against every schedule, in loads and in evictions (`BeladyOptimality`), what both eviction orders
  mean and that more room never hurts (`Policies`), lifetimes (`Lifetimes`), what budgets do (`Budgets`), what level
  inference means (`LevelModel`), and byte budgets (`FlatModels`).
- **The executor** (`Decomposition`, `Liveness`, `Memory`, `Executor`): a heap of buffers that are on the device, on
  the host or gone. Allocation, transfers and kernels may fail at any call: the environment's return codes are an
  arbitrary sequence, `Runtime.faults` counts the failures, and a `Runtime.Faultless` environment has none. Plain
  execution, plan-aware execution and the in-place decomposition of fused opcodes are methods of `Executor.Runtime`,
  proved against `Fhn.Eval`: they succeed exactly when nothing fails and the kernel table can run every instruction.
  Each instruction has a kernel of its own (`Fhn.Kernels`), so that kernels that draw random samples are covered, and
  `Runtime.log` records which opcodes were called in what order. `Simulation` relates a run under one kernel to a run
  under another; `Meaning` gives the opcodes a meaning in slots, degree and scale and shows that any backend whose
  registered kernels mean what they say computes it, whichever fused opcodes are decomposed.
- **The compiler** (`Graph`, `Traversal`, `Evaluation`, `Lowering`, `Session`): recorded operations, the graph built
  through a current-definition map, its evaluation with memo flags, its memoised post-order lowering, and the
  session that provisions inputs, runs the plan and writes back. The end-to-end statement, from a recorded list to
  the outcome and the values in the entities, is the contract of `Session.Session.Optimize`.
- **The toy scheme** (`Modular`, `ToyFhe`, `FixedPoint`, `ToyEngine`, `ToyKernels`): one-slot ciphertexts with their
  noise. Sampled masks and noise are arguments that range over everything that may be drawn, so a statement about a
  circuit is a statement about every run.
- **The whole** (`ToyMeaning`, `ToyOracle`, `ToySession`): what every opcode of the toy backend's table does to
  messages and noise; that programs over it decrypt to what the plaintext oracle computes; and that a recorded list,
  taken through compilation, planning, execution and write-back, decrypts to what running it on integers leaves.
- **Slot programs** (`Slots`, `Corpus`, `Matvec`): rotation, the rotate-and-add reduction under the plaintext oracle,
  and the encrypted matrix-vector benchmark, run by the executor over the toy scheme's kernels: exact in plain
  execution and under every feasible budget.

`Sets` holds facts about finite sets. A specification function says what is computed; the loops and in-place
updates of the original are methods with the same branches, proved to compute it; the promises are then lemmas about
the function.

Assumptions taken from `include/FHN/fhn_backend_api.h:31-39` and `:79-93`: a kernel is a function of its operand
values, its parameters and what it samples, writes only its result, and may be called in place; transfers preserve
contents. The movement hooks come as a pair or not at all, which backends are loaded with
(`src/Backend/External.cpp:66-77`), so one flag says whether there are any. Recordings are assumed never to
write a scalar entity, as `src/Fhenon.cpp:195-203` and `:281-286` guarantee; `Graph.WrittenScalarBreaksFolding` shows
the assumption is needed. Sequential execution is stated with scalar operands folded, as lowering does; it equals
execution without folding where the scalar kernels agree with the ciphertext kernels applied to the encrypted constant
(`Graph.ScalarKernels`, `Graph.FoldingIsPlain`). The toy backend's do only up to noise, and for it the results are
stated in integers.

## Where the code and its description differ

- `src/Session/Session.cpp:78-94` means to refuse an operand that is not encrypted. It refuses exactly when no entity
  bound to the input id is encrypted: in `x = y` with `x` encrypted and `y` not, the buffer of `x` stands in for `y`
  and the run goes on (`Session.UnencryptedSourceIsReplaced`). Inputs are provisioned as meant if and only if every
  entity read before it is written is encrypted (`Session.ProvisioningIsRightIff`), which a caller can check on the
  list; the write-back is proved under that condition.
- The graph reads the target of an assignment although its value is not used
  (`include/Scheduler/Scheduler.h:107-112`), so on the runtime path an assignment to an entity that was never encrypted
  makes that entity an input; in the same example the target is the first input.
- The legacy path treats the same list differently (`src/Scheduler/Operation.cpp:16-35`): assigning from an entity that
  is not encrypted leaves the target's old ciphertext in place (`Evaluation.LegacyStep`). Both paths agree when no
  operand read before it is written is unencrypted (`Lowering.BothPathsAgree`).
- The benchmark's comment (`benchmarks/fhn_matvec_bench.cpp:18-23`) bounds a product's noise with the product 81 where
  the factor 9 belongs. The bound proved is 152 for each product and 77824 for 512 of them.
- The parameter comment (`include/Crypto/ToyFHE.h:15-20`) leaves the product of the two noises, its rounding and the
  fresh noise out of the multiplication bound; `ToyFhe.ProductBound` has all terms.
- "Belady-optimal" (`include/FHN/FhnMovementPlan.h:43-46`) is proved in slot mode, and in byte mode where every level
  has one size (`FlatModels.OneSizeIsOptimal`). Where sizes differ it is false: `FlatModels.TwoSizesBreakOptimality` is
  a four-instruction program whose plan loads four times where three are enough.

## Model

| member | source | states |
|---|---|---|
| Fhn.NextUseIsFirst | src/FHN/FhnMovementPlan.cpp:98-106 | the next use of an id is a position that reads it, and no earlier position from the start on does |
| Fhn.EvalKeeps | src/FHN/FhnMovementPlan.cpp:17-44 | in a valid program a value, once computed, is never overwritten |
| Fhn.EvalSatisfies | src/FHN/FhnDefaultExecutor.cpp:31-54 | the final values satisfy every instruction: each result is its kernel applied to its operands' final values |
| Residency.EvictionsAreResidents | src/FHN/FhnMovementPlan.cpp:146-175 | the victims are distinct residents outside the working set |
| Residency.EvictionsFit | src/FHN/FhnMovementPlan.cpp:146-175 | evicting stops as soon as the incoming units fit: what is left fits, and with the last victim still there it would not |
| Residency.EvictionsPrefer | src/FHN/FhnMovementPlan.cpp:150-168 | no candidate left behind is preferred over a victim in the order of the policy; `Policies.EvictsInOrder` says what that order is in terms of the program |
| Residency.EvictionsExist | src/FHN/FhnMovementPlan.cpp:146-170 | when the working set fits there are victims enough, so the loop terminates and its exit without a victim is unreachable |
| Residency.PlanExistsIff | src/FHN/FhnMovementPlan.cpp:133-176 | a valid program has a plan if and only if every single working set fits a nonzero budget |
| Residency.EveryDispatchIsResident | src/FHN/FhnMovementPlan.cpp:119-212 | at every dispatch the working set is resident and the device within budget; evict names residents outside the working set, prefetch exactly the missing operands, free only ids of the working set, and the contents follow from the actions |
| Residency.ResidentsConserved | src/FHN/FhnMovementPlan.cpp:178-211 | residents = allocations + prefetches - evictions - releases, and one allocation per instruction |
| Policies.TouchIsLastUse | src/FHN/FhnMovementPlan.cpp:178-198 | the touch recorded of an id is the last instruction whose working set has it, read off the instructions; an id never used has none |
| Policies.EvictsInOrder | src/FHN/FhnMovementPlan.cpp:147-168 | a run evicts in the order the program determines: under Lru each victim was last used no later than the victims after it and every unused resident kept, under Belady it is read again no earlier, and the lower id goes first on ties |
| Policies.LruHoldsMostRecent | src/FHN/FhnMovementPlan.cpp:160-166 | under Lru the residents are at every point the most recently used part of what was used and not yet released |
| Policies.MoreRoomNeverHurts | benchmarks/corpus/fhn_corpus_main.cpp:176-193 | a plan with more slots exists when one with fewer does and neither prefetches nor evicts more, under Lru as under Belady |
| BeladyOptimality.RunStaysAhead | src/FHN/FhnMovementPlan.cpp:147-174 | the exchange invariant: whatever a schedule holds that is needed before a horizon and the plan does not hold, the schedule has paid loads for |
| BeladyOptimality.PlanIsSchedule | src/FHN/FhnMovementPlan.cpp:133-190 | every plan, under either policy and in either unit, is a schedule within the budget whose loads are its prefetch count and whose drops are its eviction count, so the bounds below are attained |
| BeladyOptimality.ScheduleConserves | src/FHN/FhnMovementPlan.cpp:178-211 | conservation for any schedule: allocations and loads are covered by what it holds, what it dropped and what was released |
| BeladyOptimality.BeladyDropsLeast | src/FHN/FhnMovementPlan.cpp:147-174 | at every point of the run the Belady plan has evicted no more than any schedule has dropped |
| BeladyOptimality.BeladyIsOptimal | include/FHN/FhnMovementPlan.h:43-46 | in slot mode the Belady plan prefetches no more than any schedule that keeps every working set resident within the budget loads, and evicts no more than it drops |
| BeladyOptimality.BeladyBeatsEveryPlan | benchmarks/corpus/fhn_corpus_main.cpp:176-193 | the Belady plan exists when any plan for the budget does and never prefetches more, whatever the other policy or pins; nor does it evict more than a plan that pins at least as much, so the benchmark's transfers never exceed the Lru plan's |
| Lifetimes.EveryIdDies | src/FHN/FhnMovementPlan.cpp:200-223 | each unpinned id of a program with instructions has an instruction that releases it |
| Lifetimes.FreedExactlyOnce | src/FHN/FhnMovementPlan.cpp:200-223 | each unpinned id is in exactly one free list, once, no earlier than its definition and last use, and no later action names it |
| Lifetimes.PinnedNeverFreed | src/FHN/FhnMovementPlan.cpp:202-206 | pinned and undefined ids are in no free list |
| Budgets.PeakWithinBudget | src/FHN/FhnMovementPlan.cpp:192-194 | under a budget the high-water mark, slots or bytes, never exceeds it |
| Budgets.HighWaterIsMost | src/FHN/FhnMovementPlan.cpp:192-194 | the high-water marks are the most buffers, and in byte mode the most bytes, on the device at a dispatch: none has more, some has as many |
| Budgets.BytesByLevel | src/FHN/FhnMovementPlan.cpp:90-94 | the bytes of a set of buffers are, summed over the levels, how many are at a level times what that level costs |
| Budgets.HighWaterBudget | benchmarks/corpus/fhn_corpus_main.cpp:184-187 | the unlimited plan evicts nothing, and a budget leaves the plan unchanged, under either policy, if and only if it reaches the unlimited high-water mark |
| Budgets.FindMaxWorkingSet | benchmarks/corpus/fhn_corpus_main.cpp:24-37 | computes the largest working set |
| Budgets.LeastFeasibleBudget | benchmarks/corpus/fhn_corpus_main.cpp:24-37 | a slot budget is feasible if and only if it is at least the largest working set |
| Budgets.FlatBytesAreSlots | src/FHN/FhnMovementPlan.cpp:90-94 | with ids that all cost the same a byte budget between B and B + 1 buffers gives the feasibility and the actions of slot budget B, and the byte high-water mark is the cost times the slot one |
| FlatModels.OneSizeAnalysis | src/FHN/FhnMovementPlan.cpp:48-94 | with one size for every level a byte-mode analysis returns a plan exactly when the level trace is accepted and the slot-mode analysis returns one, and it is that plan |
| FlatModels.OneSizeIsOptimal | include/FHN/FhnMovementPlan.h:43-46 | and the Belady plan is optimal, in loads and evictions, against every schedule within the byte budget |
| FlatModels.TwoSizesBreakOptimality | include/FHN/FhnMovementPlan.h:43-46 | with two sizes it need not be: a valid program, an accepted model and a budget of four bytes under which a schedule loads less than the Belady plan |
| LevelModel.LevelsNeverRise | src/FHN/FhnMovementPlan.cpp:55-87 | levels stay within the fresh level and never rise along a def-use edge, whatever the declared effects |
| LevelModel.AcceptedIffInRange | src/FHN/FhnMovementPlan.cpp:55-87 | for any declared effects inference accepts if and only if every opcode is declared and known, no def-use chain since a level was last set falls below level zero, and no instruction sets a level above what its operands have |
| LevelModel.LevelIsDepth | src/FHN/FhnMovementPlan.cpp:62-86 | an id's level is the fresh level less the furthest any def-use chain ending at it falls, CONSUMEs and set levels counted; a level that is set is params[0] |
| LevelModel.UnitsExistIff | src/FHN/FhnMovementPlan.cpp:48-88 | inference succeeds if and only if the model is well formed and some assignment of levels obeys its rules, which are written out: PRESERVE keeps the least operand level, CONSUME is one below it, SET_PARAM0 is params[0] and not above it, anything else obeys nothing |
| Analyzer.PlannedExactlyWhenFeasible | include/FHN/FhnMovementPlan.h:68-70 | a plan is returned if and only if definitions are nonzero and distinct, operands are defined earlier, the level trace exists in byte mode, and every working set fits a nonzero budget |
| Analyzer.CollectDefs | src/FHN/FhnMovementPlan.cpp:17-29 | rejects exactly zero and duplicate definitions, and otherwise records where each id is defined |
| Analyzer.CollectUses | src/FHN/FhnMovementPlan.cpp:31-44 | rejects exactly the programs that read before a definition, and otherwise lists every use in order |
| Analyzer.LeastOperandLevel | src/FHN/FhnMovementPlan.cpp:62-65 | the least operand level, at most the fresh level |
| Analyzer.ApplyEffect | src/FHN/FhnMovementPlan.cpp:66-86 | the level of a result is the one that obeys the rule of the opcode's effect and lies between zero and the fresh level; there is none for an undeclared opcode, an unknown effect, a raise or an underflow |
| Analyzer.InferLevels | src/FHN/FhnMovementPlan.cpp:55-87 | the levels of all ids, or nothing when some instruction has none |
| Analyzer.SumUnits | src/FHN/FhnMovementPlan.cpp:134-145 | adding unit by unit gives the cost of the set |
| Analyzer.SelectVictim | src/FHN/FhnMovementPlan.cpp:147-168 | one ascending pass finds the candidate first in the policy's order, and none exactly when every resident is in the working set |
| Analyzer.EvictUntilFits | src/FHN/FhnMovementPlan.cpp:146-175 | the eviction loop yields the specified victims and keeps the unit total equal to the cost of the residents |
| Analyzer.MissingOperands | src/FHN/FhnMovementPlan.cpp:128-131 | the operands not resident, ascending |
| Analyzer.ReleaseDead | src/FHN/FhnMovementPlan.cpp:200-211 | releases exactly what nothing reads later and is not pinned, ascending, with the unit total kept |
| Analyzer.MakeRoomFor | src/FHN/FhnMovementPlan.cpp:133-176 | no eviction without a budget, rejection when the working set does not fit, else the specified victims |
| Analyzer.PlanInstruction | src/FHN/FhnMovementPlan.cpp:114-212 | one instruction of the loop is one planning step, and the running unit total stays the cost of the residents |
| Analyzer.CollectUnusedInputs | src/FHN/FhnMovementPlan.cpp:216-223 | the unpinned inputs nothing reads, in input order |
| Analyzer.PlanProgram | src/FHN/FhnMovementPlan.cpp:108-225 | the whole simulation yields the specified plan |
| Analyzer.Analyze | src/FHN/FhnMovementPlan.cpp:11-226 | analyze returns the specified plan of a valid program under the units of its model, and nothing otherwise |
| Decomposition.RemovingFusedKernels | src/FHN/FhnDefaultExecutor.cpp:126-211 | for one instruction, any table that keeps the primitives computes what the full table does, however many fused kernels are missing |
| Decomposition.DispatchedIff | src/FHN/FhnDefaultExecutor.cpp:126-211 | whether an instruction can be run depends on the table alone, save that a multiply-add without its kernel needs an addend; a fused opcode runs exactly when its kernel is registered or each of its parts runs |
| Decomposition.DecompositionPreservesMeaning | src/FHN/FhnDefaultExecutor.cpp:126-211 | a program whose fused kernels equal their compositions computes the same values with and without them |
| Meaning.DispatchMeans | src/FHN/FhnDefaultExecutor.cpp:126-211 | whatever is dispatched, by its own kernel or decomposed, stands for what the opcode means: a product is multiplied, its degree brought back by a relinearization and its scale by a rescale where the table has them; HROT_ADD is the rotated first operand plus the second, HCONJ_ADD the conjugated one, MAD the scaled one |
| Meaning.ProgramMeans | include/FHN/fhn_program.h:47-53 | under any table whose kernels mean what they say a program computes what its opcodes mean, whichever of them are decomposed |
| Meaning.OperationMeans | src/Scheduler/LowerToFhnProgram.cpp:6-22 | the opcode and parameter an operation is lowered to mean the operation slot by slot; a right rotation by d brings slot i - d to slot i |
| Liveness.PlanExecutes | src/FHN/FhnMovementPlan.cpp:178-211 | each planned instruction can be carried out: what it evicts and prefetches is live, what it allocates is not, what it frees is |
| Memory.FreeOwns | src/FHN/FhnDefaultExecutor.cpp:116-120 | freeing a buffer that is not shared keeps the account of what the plan and what the caller must free, and of what the inputs hold |
| Executor.OutcomeIsValue | src/FHN/FhnDefaultExecutor.cpp:42-51 | what a dispatch computes from buffers is what the instruction computes from values |
| Executor.Runtime.DecomposeMultiply | src/FHN/FhnDefaultExecutor.cpp:136-159 | multiply, then relinearize and rescale in place where registered, in that order, as the log of kernels shows; succeeds exactly when the primitive is registered and no kernel fails; only the result buffer changes |
| Executor.Runtime.DecomposeRotateAdd | src/FHN/FhnDefaultExecutor.cpp:170-186 | rotate by whichever rotation is registered, then add in place; without addition the rotation runs and the instruction fails |
| Executor.Runtime.Decompose | src/FHN/FhnDefaultExecutor.cpp:126-211 | each fused opcode calls its primitives in place in order, as the log shows, and computes its composition, which `Meaning.DispatchMeans` gives a meaning; succeeds exactly when the table has the primitives and no kernel fails; only the result buffer changes |
| Executor.Runtime.Dispatch | src/FHN/FhnDefaultExecutor.cpp:34-53 | returns 0 exactly when the table can run the instruction and no kernel fails, and then leaves the instruction's value in the result buffer; no other buffer changes |
| Executor.Runtime.Execute | src/FHN/FhnDefaultExecutor.cpp:23-57 | plain execution succeeds exactly when no kernel fails and the table can run every instruction, and then leaves in every id what evaluation computes |
| Executor.Runtime.MoveAll | src/FHN/FhnDefaultExecutor.cpp:85-98 | succeeds exactly when no hook fails; transfers keep every value, and on success the named buffers are where they were sent |
| Executor.Runtime.AllocResult | src/FHN/FhnDefaultExecutor.cpp:89-94 | exactly when the allocation succeeds a fresh buffer becomes owned; otherwise nothing changed hands |
| Executor.Runtime.FreeAll | src/FHN/FhnDefaultExecutor.cpp:116-120 | each buffer released is freed and nulled, and no longer owned |
| Executor.Runtime.ReleaseOwned | src/FHN/FhnDefaultExecutor.cpp:71-80 | after a failure everything the plan allocated is freed once and nulled, the inputs still in the table keep their buffers and values, and pinned ones all are |
| Executor.Runtime.ExecutePlan | src/FHN/FhnDefaultExecutor.cpp:59-124 | refuses a plan of another length and otherwise succeeds exactly when no hook or kernel fails and the table can run every instruction; every kernel finds its operands and result on the device; success leaves in every pinned id what plain evaluation computes, and the surviving allocations are the pinned results; failure leaves none and changes no input's value; the device never holds more than the budget |
| Graph.LastDefIsLast | include/Scheduler/Scheduler.h:60-136 | an entity has the value its last definition left, or its initial one |
| Graph.Planner.NodeFor | include/Scheduler/Scheduler.h:107-123 | an operand resolves to its current definition, or to one shared operand node |
| Graph.Planner.BuildAST | include/Scheduler/Scheduler.h:57-136 | fails exactly when some operation is unsupported; otherwise each root applies its operation to the nodes its operands resolve to, in recording order |
| Graph.RootValue | include/Scheduler/Scheduler.h:60-136 | the graph denotes the list: each root has the value sequential execution, scalars folded, leaves in its target |
| Graph.FoldingIsPlain | include/Scheduler/LowerToFhnProgram.h:97-107 | where the scalar kernels agree with the ciphertext kernels on the encrypted constants, and no scalar is written, folding changes no value of sequential execution |
| Graph.WrittenScalarBreaksFolding | include/Scheduler/LowerToFhnProgram.h:97-107 | a written scalar makes folding read the old constant: 5 where sequential execution gives 2 |
| Traversal.VisitIsOrder | include/Scheduler/LowerToFhnProgram.h:94-113 | memoised post-order visits every node once, after its children |
| Evaluation.EachOperationOnceInOrder | include/Scheduler/Scheduler.h:158-168 | visiting the roots executes each recorded operation exactly once, in recording order |
| Evaluation.LegacyRunsIff | src/Scheduler/Operation.cpp:8-112 | executing a list operation by operation meets no error if and only if no addition or multiplication reads an entity that is not encrypted by then |
| Evaluation.LegacyKeeps | src/Scheduler/Operation.cpp:8-112 | an operation writes its target only, and once encrypted an entity stays encrypted |
| Evaluation.LegacyIsSequential | src/Scheduler/Operation.cpp:8-112 | when no operand read before it is written is unencrypted, it meets no error and leaves every encrypted entity its sequential value |
| Evaluation.Evaluator.Evaluate | include/Scheduler/ASTNode.h:26-35 | evaluation with flags is the memoised post-order, the store follows the operations executed, and an error stops it at an operation not executed |
| Evaluation.Evaluator.EvaluateGraph | include/Scheduler/Scheduler.h:158-168 | succeeds exactly when the graph is not empty, no kernel fails and running the operations in order meets no error, and leaves what that leaves; otherwise it stops at the operation that failed, with those before it executed |
| Lowering.NumberedIsValid | include/Scheduler/LowerToFhnProgram.h:41-86 | consecutive ids, each read after its definition, make a valid program |
| Lowering.EmitFacts | include/Scheduler/LowerToFhnProgram.h:88-174 | ids are handed out from 1, bindings follow the lowering order, and every lowered node's id is an input bound to its entity, the assigned value's id, or the result of an instruction applying its operation |
| Lowering.LoweredValue | include/Scheduler/LowerToFhnProgram.h:88-174 | for any graph, the program computes at every lowered node's id the value of the node |
| Lowering.LoweredIsValid | include/Scheduler/LowerToFhnProgram.h:41-86 | the lowered program of a recorded list is valid and every binding names an id it defines |
| Lowering.OperandsAreRead | include/Scheduler/Scheduler.h:107-123 | every operand node lowered belongs to an entity that some operation reads before anything writes it |
| Lowering.ReadsAreInputs | include/Scheduler/Scheduler.h:107-123 | and every such entity is the source of an input |
| Lowering.OpcodesAreOperations | include/Scheduler/LowerToFhnProgram.h:115-174 | the program has an instruction with an opcode if and only if some recorded operation is lowered to it |
| Lowering.TargetsBound | include/Scheduler/LowerToFhnProgram.h:88-174 | every entity an operation writes has a binding |
| Lowering.BoundEntities | include/Scheduler/LowerToFhnProgram.h:88-174 | an entity has a binding if and only if some operation writes it or it is read before anything writes it |
| Lowering.CompilationPreservesMeaning | include/Scheduler/LowerToFhnProgram.h:14-19 | running the lowered program and writing back each entity's last binding leaves what sequential execution, scalars folded, leaves in every entity |
| Lowering.BothPathsAgree | include/Scheduler/Scheduler.h:158-178 | when no operand read before it is written is unencrypted, evaluating the graph meets no error and leaves in each encrypted entity the value its last binding in the lowered program names |
| Lowering.Lowerer.LowerNode | include/Scheduler/LowerToFhnProgram.h:88-174 | lowers the nodes of the memoised post-order one by one, and reports a node of an unknown kind |
| Lowering.Lowerer.Lower | include/Scheduler/LowerToFhnProgram.h:41-86 | succeeds exactly when every node reached is expressible, with each root's id as an output; otherwise binds nothing |
| Session.FirstEncryptedIsSource | src/Session/Session.cpp:78-88 | the buffer handed over for an input is the source entity's if and only if that entity is encrypted |
| Session.ProvisioningIsRightIff | src/Session/Session.cpp:78-94 | every input gets its source's buffer if and only if every entity read before it is written is encrypted |
| Session.ForeignReads | src/Session/Session.cpp:78-88 | when every entity read before it is written is encrypted, a ciphertext of another backend is taken exactly when one of them has one |
| Session.UnencryptedSourceIsReplaced | src/Session/Session.cpp:78-94 | in `x = y` with y not encrypted, the buffer of x stands in for y, and x is an input although its value is not used |
| Session.LoweredPlans | src/Session/Session.cpp:58-61 | planning without a budget never rejects a lowered list, whatever is pinned |
| Session.LoweredRuns | src/FHN/FhnDefaultExecutor.cpp:34-53 | a lowered program can be run by a table exactly when the table has the kernels its recorded operations need |
| Session.WriteBackIdsLive | src/Session/Session.cpp:109-132 | after a successful run the live ids are the inputs and the write-back ids, each a buffer of its own unless it is an input |
| Session.WritesEncrypted | src/Session/Session.cpp:109-133 | when every entity read before it is written is encrypted by the session's backend, write-back leaves encrypted exactly what was encrypted and what the list writes, and takes what it writes over from other backends |
| Session.RunIsSequential | src/Session/Session.cpp:109-136 | a run with one kernel for all instructions leaves in every entity what sequential execution leaves |
| Session.FailureHarmsNothing | src/Session/Session.cpp:104-107 | after a failed run with every input pinned no buffer came or went, and every entity's buffer holds what it did |
| Session.Session.CollectLatest | src/Session/Session.cpp:36-43 | the last binding of each entity |
| Session.Session.CollectPinned | src/Session/Session.cpp:49-56 | the pinned ids are the inputs and every write-back target |
| Session.Session.Provision | src/Session/Session.cpp:73-94 | stops exactly when the first encrypted entity bound to some input belongs to another backend; otherwise each input gets the buffer of the first encrypted entity bound to it, if there is one |
| Session.Session.Adopt | src/Session/Session.cpp:109-132 | every bound entity gets the buffer of its last id and belongs to the session's backend; each plan-allocated id is wrapped once |
| Session.Session.ExecuteThroughFhnRuntime | src/Session/Session.cpp:26-136 | the outcome is determined: falls back on an empty list, stops for a foreign operand or for encryption exactly when provisioning meets one, and otherwise fails exactly when a hook or kernel does or a kernel is missing; every outcome but success leaves every entity its buffer and value and leaks nothing; success gives each surviving buffer one owner, makes each bound entity encrypted by the session's backend and no other, and leaves in each the value of its last binding |
| Session.Session.Optimize | src/Session/Session.cpp:140-185 | a whole run, with its outcome determined: refuses exactly the lists with an unsupported operation; when every entity read before it is written is encrypted, refuses exactly those that read a foreign one and otherwise fails exactly when a hook or kernel does or a kernel is missing; leaves every entity its buffer and value unless it succeeds, and then encrypted are exactly the entities that were and the targets of the list, none of the targets foreign, each new buffer belongs to one of them, and each holds what the program computes for it, which for deterministic kernels is what running the operations in order leaves |
| Modular.ModIsRemainder | src/Crypto/ToyFHE.cpp:11-17 | mod is the remainder in [0, modulus) for arguments of either sign |
| Modular.CenteredIs | src/Crypto/ToyFHE.cpp:292-301 | centeredMod yields x if and only if x is in the class of the value and -modulus < 2x <= modulus |
| ToyEngine.MulMod | src/Crypto/ToyFHE.cpp:30-42 | the double-and-add loop computes the product modulo the modulus |
| ToyEngine.Engine.Initialize | src/Crypto/ToyFHE.cpp:54-68 | accepts exactly q > t, t dividing q, scale > 1, for any nonzero t and any noise bound |
| ToyEngine.Engine.GenerateKeys | src/Crypto/ToyFHE.cpp:70-78 | needs parameters; draws a key in [1, t) |
| ToyEngine.Engine.AlignScale | src/Crypto/ToyFHE.cpp:111-117 | the loop raises a ciphertext one scale level at a time |
| ToyEngine.Engine.Multiply | src/Crypto/ToyFHE.cpp:175-199 | divides by delta, and in fixed point by scale per level above one; some sample in range was drawn |
| ToyEngine.Engine.RoundTrip | src/Crypto/ToyFHE.cpp:94-103 | when delta exceeds twice the noise bound a fresh encryption decrypts to its value if and only if that is in (-t/2, t/2] |
| ToyFhe.AcceptedIff | src/Crypto/ToyFHE.cpp:54-78 | the parameters the scheme's theorems assume are those initialize accepts whose key and noise ranges are not empty |
| ToyFhe.EncodeRawPhase | src/Crypto/ToyFHE.cpp:81-92 | a fresh encoding decodes to its value plus the noise drawn, modulo q |
| ToyFhe.CenteredDecode | src/Crypto/ToyFHE.cpp:146 | decoding recovers delta*m + e exactly while message and noise are in range |
| ToyFhe.RoundDivNearest | src/Crypto/ToyFHE.cpp:148-158 | the division rounds to nearest |
| ToyFhe.RoundDivHalves | src/Crypto/ToyFHE.cpp:148-158 | halves are rounded away from zero |
| ToyFhe.DecryptsTo | src/Crypto/ToyFHE.cpp:262-270 | with 2|e| < delta decryption returns the message if and only if it is in (-t/2, t/2] |
| ToyFhe.EncryptCarries | src/Crypto/ToyFHE.cpp:94-103 | an encryption carries its value and the noise drawn |
| ToyFhe.AddCarries | src/Crypto/ToyFHE.cpp:119-137 | sums carry the sum of messages and of noise |
| ToyFhe.MultiplyPlainCarries | src/Crypto/ToyFHE.cpp:201-209 | an integral scalar scales message and noise |
| ToyFhe.AddPlainCarries | src/Crypto/ToyFHE.cpp:211-230 | an added integer, encoded at the ciphertext's scale, shifts the message and leaves noise, scale and encoding |
| ToyFhe.NegateCarries | src/FHN/ToyFheKernels.cpp:101-108 | negation negates message and noise, though it leaves the components unreduced |
| ToyFhe.MultiplyCarries | src/Crypto/ToyFHE.cpp:138-199 | a product of in-range factors carries the product of the messages |
| ToyFhe.ProductNoiseBounded | include/Crypto/ToyFHE.h:15-20 | the noise of a product is at most abs(m1) E2 + abs(m2) E1 + (2 E1 E2 + delta) / (2 delta) + the fresh bound |
| ToyFhe.CircuitDecrypts | include/Crypto/ToyFHE.h:15-20 | every integer circuit whose recursive bound stays below delta/2, with values inside t/2 at the factors of products, decrypts to its value, whatever is sampled, if and only if the value is in (-t/2, t/2] |
| ToyFhe.ThreeDigitProducts | include/Crypto/ToyFHE.h:18-19 | with the default parameters (a b) c is exact for three-digit factors of either sign |
| ToyFhe.DecryptsNear | src/Crypto/ToyFHE.cpp:262-270 | decryption rounds whatever a ciphertext holds to the nearest multiple of delta, whether or not that is a message with small noise |
| FixedPoint.AlignScaleCarries | src/Crypto/ToyFHE.cpp:111-117 | raising a ciphertext to a scale level multiplies message and noise by the scale once per level, and makes it fixed-point exactly when it is raised |
| FixedPoint.ScaledSumCarries | src/Crypto/ToyFHE.cpp:119-137 | a sum of ciphertexts at any two scale levels carries the sum of both brought to the higher one |
| FixedPoint.FixedProductCarries | src/Crypto/ToyFHE.cpp:138-199 | a product of fixed-point ciphertexts is back at one level and holds, to the nearest, the product divided by delta and by the scale for every level above one |
| FixedPoint.FixedProductDecrypts | src/Crypto/ToyFHE.cpp:138-199 | while the noise is small and the quotient fits, it decrypts to one of the two integers next to the product of the mantissas divided by the scale, and to the quotient where the division is exact |
| ToyFhe.WordsSuffice | include/Crypto/ToyFHE.h:12-26 | with the default parameters every sum a circuit or its decryption computes fits 64 bits and every product, its rounding and its reduction 128 |
| ToyKernels.ToyFusedAreCompositions | src/FHN/ToyFheKernels.cpp:134-213 | the backend's fused kernels are the compositions the executor runs in their place |
| ToyKernels.VecBinary | src/FHN/ToyFheKernels.cpp:46-64 | slot by slot, for vectors of one nonzero size, also when the result is an operand; a refusal changes nothing |
| ToyKernels.BinaryOp | src/FHN/ToyFheKernels.cpp:66-125 | vectors with vectors, single ciphertexts with single ones, nothing mixed |
| ToyKernels.SingleOp | src/FHN/ToyFheKernels.cpp:84-132 | the kernels of one ciphertext compute on the ciphertext the operand buffer held last, whatever its kind; which function each opcode applies is `ToyMeaning.ToyFollows` |
| ToyKernels.SubtractOp | src/FHN/ToyFheKernels.cpp:89-99 | subtraction adds a negated copy of the second operand's ciphertext, whatever the kinds |
| ToyKernels.RotateOp | src/FHN/ToyFheKernels.cpp:141-159 | a signed cyclic left rotation, in place allowed |
| ToyKernels.HrotAddOp | src/FHN/ToyFheKernels.cpp:161-180 | rotate and add in one pass, in place allowed |
| ToyKernels.PassthroughOp | src/FHN/ToyFheKernels.cpp:182-194 | copies a loaded buffer, and only that |
| ToyMeaning.ToyFollows | src/FHN/ToyFheKernels.cpp:196-213 | what every opcode of the table does to messages and noise, whatever is sampled: sums and differences add noise, ADD_CS shifts the message, MULT_CS multiplies message and noise, NEGATE negates, products multiply messages within the product bound, rotations move slots, RELINEARIZE and RESCALE change nothing |
| ToyMeaning.ProgramHolds | src/FHN/FhnDefaultExecutor.cpp:31-54 | a program over the backend, with or without its fused kernels: every buffer holds the messages, within the noise, that the message-and-noise kernel computes |
| Slots.RotateAt | src/FHN/ToyFheKernels.cpp:37-41 | after normalising the distance slot i holds slot (i + d) mod n, for d of either sign |
| Slots.ReductionSumsAll | benchmarks/corpus/corpus_shapes.cpp:19-25 | for every power of two n the halving reduction leaves the sum of all n slots in every slot |
| Corpus.Evaluate | benchmarks/corpus/corpus_oracle.cpp:12-104 | the oracle evaluates instruction by instruction and gives up at a missing operand, a size mismatch or an opcode without a rule |
| Corpus.ComparisonsAgree | benchmarks/corpus/corpus_oracle.cpp:30-78 | exactly one of x = y, x < y and y < x is 1 and the rest 0, x <= y is their sum, and a constant less a slot is its negation plus the constant |
| Corpus.ShapeBuilder.ReduceTree | benchmarks/corpus/corpus_shapes.cpp:19-25 | appends a rotation and an addition per halving, under fresh ids |
| Corpus.ReduceTreeSums | benchmarks/corpus/corpus_shapes.cpp:19-25 | evaluated by the oracle, every slot of the result is the sum of all slots |
| Corpus.ShapeBuilder.MatvecOnce | benchmarks/corpus/corpus_shapes.cpp:27-37 | appends a rotation, a scalar product and an addition per diagonal |
| Corpus.MatvecOnceComputes | benchmarks/corpus/corpus_shapes.cpp:27-37 | evaluated by the oracle, slot i is the sum over the diagonals d of coefficient d times slot i + d |
| ToyOracle.KeptIff | src/FHN/ToyFheKernels.cpp:46-132 | when the message-and-noise analysis of an instruction loses nothing: operands known and of one shape, and factors of products in range |
| ToyOracle.ToyDecryptsOracle | benchmarks/corpus/corpus_oracle.cpp:12-104 | a program of opcodes the backend and the oracle share, run over the backend with or without fused kernels and whatever is sampled: while the analysis loses nothing the oracle evaluates it, and each slot whose noise is below half of delta decrypts to the oracle's slot if and only if that is a plaintext |
| Matvec.BuildProgram | benchmarks/fhn_matvec_bench.cpp:174-207 | builds the program with exactly the n (1 + log2 n) instructions allocated for it, each row's output its last id |
| Matvec.MatvecValid | benchmarks/fhn_matvec_bench.cpp:188-207 | the program is valid |
| Matvec.MatvecFeasible | benchmarks/fhn_matvec_bench.cpp:104-130 | a slot budget is feasible for it if and only if it is unlimited or at least three |
| Matvec.MatvecKernels | benchmarks/fhn_matvec_bench.cpp:188-207 | a run calls one kernel per instruction, n (1 + log2 n), and without the fused kernels n (3 + 2 log2 n) |
| Matvec.StepIsKernel | src/FHN/FhnDefaultExecutor.cpp:135-185 | under any table with the primitives HMULT and HROT_ADD write what the fused kernels do |
| Matvec.ReductionRuns | benchmarks/fhn_matvec_bench.cpp:196-205 | the reduction over ciphertexts is the reduction of their messages and of their noise |
| Matvec.RowInRange | benchmarks/fhn_matvec_bench.cpp:18-23 | for n up to 512 the summed noise is at most 77824, below 2^25 |
| Matvec.MatvecIsExact | benchmarks/fhn_matvec_bench.cpp:13-23 | for every power of two n up to 512, digits, key and samples, with or without the fused kernels, the table can run the program and every slot of every row's value decrypts to the dot product |
| Matvec.RunMatvec | benchmarks/fhn_matvec_bench.cpp:239-254 | run by the executor, with or without the fused kernels, it succeeds exactly when no kernel fails, and then every slot of every output buffer decrypts to the dot product |
| Matvec.RunMatvecPlanned | src/FHN/FhnDefaultExecutor.cpp:59-124 | run under a plan it is rejected exactly for a budget of one or two buffers, and otherwise succeeds exactly when no hook or kernel fails, and then every output is exact; the device never holds more than the budget |
| ToySession.KnownAfter | src/Session/Session.cpp:140-185 | sequential execution in messages and noise: every entity encrypted or written by then holds the integer the list leaves in it, within a noise bound computed from the list |
| ToySession.RunRecording | src/Session/Session.cpp:26-185 | a recorded list over the toy backend, with the fused kernels or without: the run fails exactly when a hook or kernel does; otherwise encrypted are the entities that were and the targets, and where factors of products fit, every entity whose noise bound is below half of delta decrypts to the integer that running the list leaves in it, if and only if that is a plaintext |

## Left out

- BeladyIsOptimal: slot mode, and by `FlatModels.OneSizeIsOptimal` byte mode with one size for every level; with other
  sizes it fails (`FlatModels.TwoSizesBreakOptimality`), and which other models and programs it holds for is not said.
- ExecutePlan: the caller's table holds exactly the inputs, and two inputs share a buffer only if both are pinned and no
  budget is set, which is how the session calls it; a null context, hook table or ABI mismatch is not modelled, and
  neither is an executor called directly with one movement hook of the pair.
- ExecuteThroughFhnRuntime: the plaintext mirror `val_` of an entity is not modelled, and neither is shared ownership
  beyond who must free a buffer.
- EvaluateGraph: an entity is encrypted or not; one marked encrypted without a ciphertext, and ciphertexts of another
  backend on this path, are not modelled.
- OnSingle: a vector operand gives no value; the source computes on the single ciphertext the buffer held before
  (`ToyKernels.SingleOp`), which depends on the buffer's past and not on its value. So does Difference.
- AddPlainCarries: integer scalars only; the circuit theorems are about integer-encoded ciphertexts.
- Conversion of floating point to and from mantissas (`encryptDouble`, `decryptDouble`, fractional scalars) and the
  `long double` fallbacks: rounding of floating point; `decryptInt` is modelled with exact rational rounding. What
  ciphertexts do to mantissas is modelled (`FixedPoint`).
- Machine widths: ids, counts and unit sums are unbounded integers. The toy scheme's never leave their words
  (`ToyFhe.WordsSuffice`); the slots of the oracle are unbounded.
- Instruction parameters other than `params[0]` and `fparams[0]`: no modelled code reads them.
- Unordered containers, `std::set` iteration, `std::sort` and `std::upper_bound` are used by their contracts; "no further
  use" is the program length instead of the largest integer.
- Bitwise opcodes of the oracle: an argument of the model.
- The other corpus shapes: straight-line compositions of the opcodes and of the two shapes modelled, which
  `ToyOracle.ToyDecryptsOracle` and the planner's theorems cover like any program.
- Fused operations, fused-kernel nodes and the empty matrix-multiplication pass: lowering rejects a node of unknown kind,
  which is modelled; nothing builds one.
- Entity tracking, aliasing, poisoning and copying in `Fhenon` and `Session`: the model starts from the recorded list.
- Loading of external backends, the Cheddar and TFHE-rs backends, parameters and profiles, timing and reports.
- Quality of key and noise sampling: only the ranges matter here, and the scheme is not meant to be secure.
