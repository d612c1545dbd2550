# openrs2 deobfuscator transformers, modelled in Dafny

This project models five pieces of the openrs2 deobfuscator and proves
what each promises.

- **Constant-argument propagation** (`ConstantArgTransformer`). Modules
  `ConstantArg`, `ConstantArgCode`, `ConstantArgDiscovery`,
  `ConstantArgKnowledge`, `ConstantArgInputs` and `IntValues`.
  - `preTransform` is a worklist loop. It seeds the queue with the members
    of every non-renamable inherited-method partition. It then analyses
    queued methods until the queue is empty.
  - Each reachable call site joins the pushed argument values into the
    callee partition's slots, and a slot index advances by each value's
    width.
  - A change to a slot re-queues the callee. So does the first call seen
    without arguments.
  - `transformCode` rewrites always-taken conditional jumps to `GOTO`,
    deletes never-taken ones, and replaces pure single-value computations
    whose value is a known singleton by a constant load.
  - The loop is a method over the class's fields. Its invariant is stated
    over a value-level `Knowledge` record. Its termination is proved with
    a lexicographic measure: remaining facts over a finite universe,
    remaining argless partitions, and queue length.
  - At exit, every entry point has been analysed, every callee of an
    analysed method has been analysed, and re-analysing any of them would
    record nothing new.
- **Shift-distance masking** (`BitShiftTransformer`), module `BitShift`.
  - Each constant push feeding a shift is masked in place: with 31 for an
    int shift, or 63 for `LSHL`/`LSHR`/`LUSHR`.
  - The JVM uses only the low five or six bits of the distance (Java
    Virtual Machine Specification, section 6.5, `ishl` and `lshl`), so the
    masked value is congruent to the original and the shift's meaning is
    kept.
  - The pass is proved idempotent.
- **Symbol remapping** (`ClassNodeRemapper.kt`), module
  `ClassNodeRemapper`. The class, field and method nodes are mutable
  objects remapped in place. Every mapping function of the
  `ExtendedRemapper` is a field of the `Remapper` value.
- **If/else normalisation** (`IfElseTransformer`), module `IfElse`. It is
  modelled on a statement tree.
  - In the first pass, an if with an if-like then-branch, a plain
    else-branch and a negated condition meets both swap rules.
  - Both rules assign values computed from the original condition and
    branches. So the second swap writes what the first already wrote, and
    the net effect is one swap.
  - `IfElse.FirstPassRule` follows the code literally, and its contract
    states that net effect.
  - Each if records whether its then-branch is still in its child list.
    JavaParser's setters unlink the node they replace, so a swap leaves
    the new then-branch unlinked, and the second pass, which searches
    child lists, never reaches into it (see "## Findings").
- **Argument-name flattening** (`ArgumentMappingGenerator`), module
  `ArgumentMapping`.

The shared module `Asm` holds the instruction datatype, opcode constants
and the mutable `FieldNode`, `MethodNode` and `ClassNode` classes.

## Model

| member | source | states |
|---|---|---|
| IntValues.Singleton | deob/src/main/java/dev/openrs2/deob/transform/ConstantArgTransformer.kt:169 | `value.singleton` is present exactly for a `Constant` set of one element, and is that element |
| IntValues.Union | deob/src/main/java/dev/openrs2/deob/transform/ConstantArgTransformer.kt:171 | the union is an upper bound of both operands; it is `Unknown` exactly when either operand is, otherwise the union of the two value sets |
| IntValues.UnionCommutes | deob/src/main/java/dev/openrs2/deob/transform/ConstantArgTransformer.kt:171 | `old union value` does not depend on operand order |
| IntValues.UnionAssociates | deob/src/main/java/dev/openrs2/deob/transform/ConstantArgTransformer.kt:171 | repeated joins into one slot can be regrouped |
| IntValues.UnionIdempotent | deob/src/main/java/dev/openrs2/deob/transform/ConstantArgTransformer.kt:171 | joining a value into itself changes nothing |
| IntValues.UnionLeast | deob/src/main/java/dev/openrs2/deob/transform/ConstantArgTransformer.kt:171 | the union is the least upper bound |
| IntValues.LeTransitive | deob/src/main/java/dev/openrs2/deob/transform/ConstantArgTransformer.kt:169-177 | the knowledge order between value sets is transitive |
| IntValues.LeAntisymmetric | deob/src/main/java/dev/openrs2/deob/transform/ConstantArgTransformer.kt:169-177 | two value sets each below the other are equal, so a slot that grows and differs has strictly grown |
| Asm.IntConstant | deob/src/main/java/dev/openrs2/deob/transform/ConstantArgTransformer.kt:259 | `intConstant` is present exactly for `ICONST_M1`..`ICONST_5` (giving `opcode - ICONST_0`), `BIPUSH`/`SIPUSH` (giving the operand) and an int `LDC` (giving its constant); every other instruction has none |
| Asm.CreateIntConstant | deob/src/main/java/dev/openrs2/deob/transform/BitShiftTransformer.java:38 | `createIntConstant(v)` builds an instruction whose `intConstant` is `v`: `ICONST_<v>` for -1..5, `LDC` outside the 16-bit range |
| Asm.IndexOf | deob/src/main/java/dev/openrs2/deob/transform/ConstantArgTransformer.kt:272 | `instructions.indexOf` finds the first node with the id, or reports that there is none |
| Asm.NextReal | deob/src/main/java/dev/openrs2/deob/transform/ConstantArgTransformer.kt:271 | `nextReal` is the first later real instruction (not a label, line number or frame), or none |
| ConstantArgInputs.FrameAt | deob/src/main/java/dev/openrs2/deob/transform/ConstantArgTransformer.kt:138-141 | a frame index past the analyzer's frames reads as unreachable; otherwise the frame itself |
| ConstantArgInputs.StackAt | deob/src/main/java/dev/openrs2/deob/transform/ConstantArgTransformer.kt:153 | `frame.getStack(k)` is the k-th stack entry when it exists |
| ConstantArgInputs.TopValues | deob/src/main/java/dev/openrs2/deob/transform/ConstantArgTransformer.kt:152-153 | the call's `size` arguments are the top `size` stack entries, deepest first |
| ConstantArgInputs.SumWidths | deob/src/main/java/dev/openrs2/deob/transform/ConstantArgTransformer.kt:131 | `sumBy { it.size }` over argument types lies between the count and twice the count |
| ConstantArgInputs.SingleOrNull | deob/src/main/java/dev/openrs2/deob/transform/ConstantArgTransformer.kt:101 | `singleOrNull` finds a method by name and descriptor only when exactly one matches |
| ConstantArgInputs.ReplaceExpression | deob/src/main/java/dev/openrs2/deob/transform/ConstantArgTransformer.kt:233 | `replaceExpression` succeeds exactly when the instruction is present and its operands are pure; on success the operands and the instruction give way to one new node, on failure the code is unchanged |
| ConstantArgInputs.DeleteExpression | deob/src/main/java/dev/openrs2/deob/transform/ConstantArgTransformer.kt:239 | `deleteExpression` succeeds exactly when the instruction is present and its operands are pure; on success the operands and the instruction are removed, on failure the code is unchanged |
| ConstantArgInputs.ReplaceRemoves | deob/src/main/java/dev/openrs2/deob/transform/ConstantArgTransformer.kt:233 | a successful `replaceExpression` removes the instruction from a list of distinct nodes, and the list stays distinct |
| ConstantArgInputs.DeleteRemoves | deob/src/main/java/dev/openrs2/deob/transform/ConstantArgTransformer.kt:239 | a successful `deleteExpression` removes the instruction, keeps the nodes distinct and shortens the list |
| ConstantArgKnowledge.Get | deob/src/main/java/dev/openrs2/deob/transform/ConstantArgTransformer.kt:167 | `argValues[ref]` is present exactly when the key is in the map |
| ConstantArgKnowledge.Join | deob/src/main/java/dev/openrs2/deob/transform/ConstantArgTransformer.kt:169-177 | a non-singleton value makes the slot `Unknown` whatever it held; a singleton is stored as is in an empty slot and unioned with an existing entry |
| ConstantArgKnowledge.JoinGrows | deob/src/main/java/dev/openrs2/deob/transform/ConstantArgTransformer.kt:169-177 | the new entry is never below the old one |
| ConstantArgKnowledge.JoinAbsorbs | deob/src/main/java/dev/openrs2/deob/transform/ConstantArgTransformer.kt:169-178 | recording the same value twice changes nothing the second time |
| ConstantArgKnowledge.AbsorbedStays | deob/src/main/java/dev/openrs2/deob/transform/ConstantArgTransformer.kt:169-178 | a value already absorbed by a slot stays absorbed as the slot grows |
| ConstantArgKnowledge.AddAll | deob/src/main/java/dev/openrs2/deob/transform/ConstantArgTransformer.kt:93 | `pendingMethods.addAll` keeps the queue free of duplicates, appends only new members, keeps the old order, and changes nothing when all are already queued |
| ConstantArgKnowledge.FoldAppend | deob/src/main/java/dev/openrs2/deob/transform/ConstantArgTransformer.kt:138-163 | recording contributions in two batches equals recording them at once |
| ConstantArgKnowledge.GrowsTransitive | deob/src/main/java/dev/openrs2/deob/transform/ConstantArgTransformer.kt:166-181 | knowledge growth composes |
| ConstantArgKnowledge.StepGrows | deob/src/main/java/dev/openrs2/deob/transform/ConstantArgTransformer.kt:154-161 | one recorded contribution only grows slots, argless partitions and the queue |
| ConstantArgKnowledge.FoldGrows | deob/src/main/java/dev/openrs2/deob/transform/ConstantArgTransformer.kt:138-163 | a whole call-site pass only grows the knowledge |
| ConstantArgKnowledge.FoldNoDup | deob/src/main/java/dev/openrs2/deob/transform/ConstantArgTransformer.kt:155-161 | the queue stays duplicate-free under `addAll` |
| ConstantArgKnowledge.AbsorbedGrows | deob/src/main/java/dev/openrs2/deob/transform/ConstantArgTransformer.kt:166-181 | a contribution absorbed by some knowledge stays absorbed by any larger one |
| ConstantArgKnowledge.AllAbsorbedGrow | deob/src/main/java/dev/openrs2/deob/transform/ConstantArgTransformer.kt:166-181 | the same for a list of contributions |
| ConstantArgKnowledge.FoldAbsorbs | deob/src/main/java/dev/openrs2/deob/transform/ConstantArgTransformer.kt:138-163 | after a pass every contribution of that pass is absorbed |
| ConstantArgKnowledge.AbsorbedFoldIsIdentity | deob/src/main/java/dev/openrs2/deob/transform/ConstantArgTransformer.kt:154-161 | a pass whose contributions are all absorbed changes neither slots, argless set nor queue |
| ConstantArgKnowledge.ChangedSlotsQueued | deob/src/main/java/dev/openrs2/deob/transform/ConstantArgTransformer.kt:154-155 | whenever a slot of a callee partition changes, every member of that partition is queued |
| ConstantArgKnowledge.NewArglessQueued | deob/src/main/java/dev/openrs2/deob/transform/ConstantArgTransformer.kt:160-161 | a partition newly seen called without arguments has all its members queued |
| ConstantArgKnowledge.FoldQueuedFrom | deob/src/main/java/dev/openrs2/deob/transform/ConstantArgTransformer.kt:155-161 | a pass queues only members of partitions it called |
| ConstantArgKnowledge.StepTracked | deob/src/main/java/dev/openrs2/deob/transform/ConstantArgTransformer.kt:155-161 | every callee member stays analysed or queued once a call to it was recorded |
| ConstantArgKnowledge.FoldTracked | deob/src/main/java/dev/openrs2/deob/transform/ConstantArgTransformer.kt:138-163 | the same across a whole pass |
| ConstantArgKnowledge.EntryFactsGrow | deob/src/main/java/dev/openrs2/deob/transform/ConstantArgTransformer.kt:169-177 | a slot that grows and changes gains facts, the basis of the loop's termination measure |
| ConstantArgKnowledge.FactsUpdate | deob/src/main/java/dev/openrs2/deob/transform/ConstantArgTransformer.kt:178 | storing a larger entry never loses facts, and a changed entry adds one |
| ConstantArgKnowledge.FactsBounded | deob/src/main/java/dev/openrs2/deob/transform/ConstantArgTransformer.kt:178 | the facts about slots of known partitions lie in a finite universe |
| ConstantArgKnowledge.FoldFacts | deob/src/main/java/dev/openrs2/deob/transform/ConstantArgTransformer.kt:138-163 | a pass never loses facts |
| ConstantArgKnowledge.QuietFold | deob/src/main/java/dev/openrs2/deob/transform/ConstantArgTransformer.kt:154-161 | a pass that learns no fact and no argless partition queues nothing |
| ConstantArgKnowledge.FoldSlotsWithin | deob/src/main/java/dev/openrs2/deob/transform/ConstantArgTransformer.kt:154 | a pass records only slots of the callees it sees |
| ConstantArgKnowledge.FoldArglessWithin | deob/src/main/java/dev/openrs2/deob/transform/ConstantArgTransformer.kt:160 | a pass records only partitions it sees |
| ConstantArgKnowledge.RemainingShrinks | deob/src/main/java/dev/openrs2/deob/transform/ConstantArgTransformer.kt:67-70 | the measure of what remains strictly shrinks when knowledge strictly grows |
| ConstantArgDiscovery.ArgContributions | deob/src/main/java/dev/openrs2/deob/transform/ConstantArgTransformer.kt:151-158 | the j-th argument value is recorded at slot `ArgIndex(vals, j)` of the callee partition, with its value set |
| ConstantArgDiscovery.ArgIndexBounded | deob/src/main/java/dev/openrs2/deob/transform/ConstantArgTransformer.kt:151-158 | every slot index lies below twice the argument count |
| ConstantArgDiscovery.ArgIndexStep | deob/src/main/java/dev/openrs2/deob/transform/ConstantArgTransformer.kt:157 | the slot index advances by each value's width, so a two-word argument takes two slots |
| ConstantArgDiscovery.GetArgs | deob/src/main/java/dev/openrs2/deob/transform/ConstantArgTransformer.kt:129-133 | the argument array has one entry per slot (the sum of argument sizes); each is the recorded knowledge of that slot, or `Unknown` when none is recorded |
| ConstantArgDiscovery.GetArgsDiffer | deob/src/main/java/dev/openrs2/deob/transform/ConstantArgTransformer.kt:129-133 | two knowledge maps that give a method different arguments differ at one of its slots |
| ConstantArgDiscovery.Lookup | deob/src/main/java/dev/openrs2/deob/transform/ConstantArgTransformer.kt:100-101 | a method is found exactly when its owner is on the class path and exactly one method there has its name and descriptor |
| ConstantArgDiscovery.SiteWithin | deob/src/main/java/dev/openrs2/deob/transform/ConstantArgTransformer.kt:143-163 | a call site contributes only slots and partitions of the inherited method sets |
| ConstantArgDiscovery.CallsWithin | deob/src/main/java/dev/openrs2/deob/transform/ConstantArgTransformer.kt:138-163 | the same for all call sites of a method; unreachable and non-call instructions contribute nothing |
| ConstantArgDiscovery.ContributionsWithin | deob/src/main/java/dev/openrs2/deob/transform/ConstantArgTransformer.kt:98-127 | the same for the analysis of a whole method |
| ConstantArgDiscovery.WithinMembers | deob/src/main/java/dev/openrs2/deob/transform/ConstantArgTransformer.kt:148 | each callee partition is a partition of the set and its members are known |
| ConstantArgDiscovery.QueueAllMembers | deob/src/main/java/dev/openrs2/deob/transform/ConstantArgTransformer.kt:73-96 | the entry-point queue holds exactly the old queue plus the members of the non-renamable partitions, without duplicates |
| ConstantArgDiscovery.DiscoveryStart | deob/src/main/java/dev/openrs2/deob/transform/ConstantArgTransformer.kt:57-65 | after the reset and the seeding, the discovery invariant holds |
| ConstantArgDiscovery.DiscoveryStep | deob/src/main/java/dev/openrs2/deob/transform/ConstantArgTransformer.kt:67-70 | analysing the first queued method preserves the discovery invariant and strictly decreases the loop measure |
| ConstantArgDiscovery.StepInvariant | deob/src/main/java/dev/openrs2/deob/transform/ConstantArgTransformer.kt:67-70 | the structural parts of the invariant (no duplicates, known members, covered entry points) survive one iteration |
| ConstantArgDiscovery.StepStable | deob/src/main/java/dev/openrs2/deob/transform/ConstantArgTransformer.kt:67-70 | every analysed method is still queued or stable after one iteration |
| ConstantArgDiscovery.StableIgnoresPending | deob/src/main/java/dev/openrs2/deob/transform/ConstantArgTransformer.kt:166-181 | stability depends only on the slots and argless set, not on the queue |
| ConstantArgDiscovery.StepStableOne | deob/src/main/java/dev/openrs2/deob/transform/ConstantArgTransformer.kt:129-163 | a method stays stable or gets re-queued when its arguments change |
| ConstantArgDiscovery.RequeuedOnChange | deob/src/main/java/dev/openrs2/deob/transform/ConstantArgTransformer.kt:154-155 | a method whose argument array changed during a pass is queued |
| ConstantArgDiscovery.StepMeasure | deob/src/main/java/dev/openrs2/deob/transform/ConstantArgTransformer.kt:67-70 | each iteration strictly decreases (remaining facts, remaining argless partitions, queue length) lexicographically |
| ConstantArgDiscovery.DiscoveryDone | deob/src/main/java/dev/openrs2/deob/transform/ConstantArgTransformer.kt:67-70 | when the queue is empty every entry point was analysed, every analysed method is stable, and every callee of an analysed method was analysed |
| ConstantArgDiscovery.Reanalysis | deob/src/main/java/dev/openrs2/deob/transform/ConstantArgTransformer.kt:98-127 | at the fixpoint, re-analysing any analysed method records nothing new |
| ConstantArgCode.BranchFate | deob/src/main/java/dev/openrs2/deob/transform/ConstantArgTransformer.kt:200-226 | a unary `IFxx` is decided only when the top of stack is `Constant`, a binary `IF_ICMPxx` only when both operands are, by the branch evaluator on those value sets; every other instruction is undecided |
| ConstantArgCode.Classified | deob/src/main/java/dev/openrs2/deob/transform/ConstantArgTransformer.kt:190-227 | the classified list is no longer than the instructions scanned |
| ConstantArgCode.ClassifiedMembers | deob/src/main/java/dev/openrs2/deob/transform/ConstantArgTransformer.kt:190-227 | the list holds exactly the reachable instructions with that outcome, and all are jumps |
| ConstantArgCode.RewriteAlways | deob/src/main/java/dev/openrs2/deob/transform/ConstantArgTransformer.kt:231-236 | the count of always-taken rewrites is at most the number of branches |
| ConstantArgCode.AlwaysStep | deob/src/main/java/dev/openrs2/deob/transform/ConstantArgTransformer.kt:232-235 | the count rises by one exactly when the instruction is still present and its operands are pure (the replacement succeeds), and otherwise the code is unchanged |
| ConstantArgCode.AlwaysStepReplaces | deob/src/main/java/dev/openrs2/deob/transform/ConstantArgTransformer.kt:232-234 | a counted always-taken branch is gone, a `GOTO` to its label stands where its operands began, the code before is kept, and the nodes stay distinct |
| ConstantArgCode.RewriteNever | deob/src/main/java/dev/openrs2/deob/transform/ConstantArgTransformer.kt:238-242 | the count of never-taken deletions is at most the number of branches |
| ConstantArgCode.NeverStep | deob/src/main/java/dev/openrs2/deob/transform/ConstantArgTransformer.kt:239-241 | the count rises by one exactly when the instruction is still present and its operands are pure (the deletion succeeds), and otherwise the code is unchanged |
| ConstantArgCode.NeverStepDeletes | deob/src/main/java/dev/openrs2/deob/transform/ConstantArgTransformer.kt:239-240 | a counted never-taken branch is gone, the method is shorter, and the nodes stay distinct |
| ConstantArgCode.RewriteAlwaysOnlyAddsGotos | deob/src/main/java/dev/openrs2/deob/transform/ConstantArgTransformer.kt:231-236 | every instruction left is an old one or a `GOTO` to the label of an always-taken branch, and the code does not grow |
| ConstantArgCode.RewriteNeverOnlyDeletes | deob/src/main/java/dev/openrs2/deob/transform/ConstantArgTransformer.kt:238-242 | the never-taken pass only removes instructions, at least one per counted deletion |
| ConstantArgCode.SimplifiedCodeShape | deob/src/main/java/dev/openrs2/deob/transform/ConstantArgTransformer.kt:183-245 | after branch simplification every instruction is an old one or a `GOTO` to an always-taken branch's label, and the method does not grow |
| ConstantArgCode.InlineValue | deob/src/main/java/dev/openrs2/deob/transform/ConstantArgTransformer.kt:253-279 | a constant is recorded only for a reachable, pure, non-constant instruction that pushes exactly one value, and it is the singleton at the top of the next real instruction's frame |
| ConstantArgCode.InlineSkips | deob/src/main/java/dev/openrs2/deob/transform/ConstantArgTransformer.kt:259-268 | instructions that are already constants, impure, or push other than one value are never recorded |
| ConstantArgCode.Candidates | deob/src/main/java/dev/openrs2/deob/transform/ConstantArgTransformer.kt:253-280 | no more constants are recorded than instructions scanned |
| ConstantArgCode.CandidatesMembers | deob/src/main/java/dev/openrs2/deob/transform/ConstantArgTransformer.kt:253-280 | the recorded pairs are exactly the instructions with an inline value, each with that value |
| ConstantArgCode.InlineAll | deob/src/main/java/dev/openrs2/deob/transform/ConstantArgTransformer.kt:284-293 | the inlined count is at most the number of recorded constants |
| ConstantArgCode.InlineStep | deob/src/main/java/dev/openrs2/deob/transform/ConstantArgTransformer.kt:285-292 | a constant whose instruction is gone leaves code and count as they are; otherwise the count rises by one exactly when the replacement succeeds, and the code is unchanged when it fails |
| ConstantArgCode.InlineStepReplaces | deob/src/main/java/dev/openrs2/deob/transform/ConstantArgTransformer.kt:289-291 | a counted instruction is gone, a push of its recorded constant stands where its operands began, the code before is kept, and the nodes stay distinct |
| ConstantArgCode.InlineAllOnlyAddsConstants | deob/src/main/java/dev/openrs2/deob/transform/ConstantArgTransformer.kt:284-293 | every instruction left is an old one or a push of one of the recorded constants, and the code does not grow |
| ConstantArg.ConstantArgTransformer.constructor | deob/src/main/java/dev/openrs2/deob/transform/ConstantArgTransformer.kt:50-55 | the queue, argless set and knowledge start empty and the counters at zero |
| ConstantArg.ConstantArgTransformer.PreTransform | deob/src/main/java/dev/openrs2/deob/transform/ConstantArgTransformer.kt:57-71 | the counters are reset, the loop ends with an empty queue, every entry point was analysed, every callee of an analysed method was analysed, and every analysed method is stable |
| ConstantArg.ConstantArgTransformer.AnalyzeNext | deob/src/main/java/dev/openrs2/deob/transform/ConstantArgTransformer.kt:68-69 | one loop iteration keeps the discovery invariant and makes progress on the termination measure |
| ConstantArg.ConstantArgTransformer.Reset | deob/src/main/java/dev/openrs2/deob/transform/ConstantArgTransformer.kt:58-63 | all state and counters are cleared and the inherited method sets installed |
| ConstantArg.ConstantArgTransformer.QueueEntryPoints | deob/src/main/java/dev/openrs2/deob/transform/ConstantArgTransformer.kt:73-96 | the queue gains exactly the members of the non-renamable partitions |
| ConstantArg.ConstantArgTransformer.AnalyzeMethod | deob/src/main/java/dev/openrs2/deob/transform/ConstantArgTransformer.kt:98-127 | the new state is the old one with the contributions of the method's analysed copy recorded (the copy keeps every field, and the analyzer sees its descriptor, access flags and exception table); a missing class, ambiguous method or method without code records nothing |
| ConstantArg.ConstantArgTransformer.AddArgValues | deob/src/main/java/dev/openrs2/deob/transform/ConstantArgTransformer.kt:135-164 | the new state is the old one with the contributions of every reachable call site recorded in order |
| ConstantArg.ConstantArgTransformer.AddFrame | deob/src/main/java/dev/openrs2/deob/transform/ConstantArgTransformer.kt:138-163 | one frame of the loop: an unreachable or non-call instruction records nothing, a call site records its contributions |
| ConstantArg.ConstantArgTransformer.AddCallSite | deob/src/main/java/dev/openrs2/deob/transform/ConstantArgTransformer.kt:143-162 | a call to a known partition records each argument at its slot and queues on change; a zero-argument call records the partition as argless and queues it the first time |
| ConstantArg.ConstantArgTransformer.RecordArg | deob/src/main/java/dev/openrs2/deob/transform/ConstantArgTransformer.kt:154-155 | one argument is joined into its slot and the callee is queued if the slot changed |
| ConstantArg.ConstantArgTransformer.AddArgValue | deob/src/main/java/dev/openrs2/deob/transform/ConstantArgTransformer.kt:166-181 | only the entry for `ref` changes, to the join of the old entry and the value; the result is true exactly when the entry differs from the old one (absent counts as different) |
| ConstantArg.ConstantArgTransformer.SimplifyBranches | deob/src/main/java/dev/openrs2/deob/transform/ConstantArgTransformer.kt:183-245 | the method's code and the returned count are those of classifying the branches, rewriting the always-taken ones to `GOTO` and deleting the never-taken ones |
| ConstantArg.ConstantArgTransformer.ClassifyBranches | deob/src/main/java/dev/openrs2/deob/transform/ConstantArgTransformer.kt:187-227 | the two lists are the reachable always-taken and never-taken jumps, in instruction order |
| ConstantArg.ConstantArgTransformer.ReplaceAlwaysTaken | deob/src/main/java/dev/openrs2/deob/transform/ConstantArgTransformer.kt:231-236 | the loop computes the always-taken rewrite and its count |
| ConstantArg.ConstantArgTransformer.DeleteNeverTaken | deob/src/main/java/dev/openrs2/deob/transform/ConstantArgTransformer.kt:238-242 | the loop computes the never-taken deletion and its count |
| ConstantArg.ConstantArgTransformer.Fate | deob/src/main/java/dev/openrs2/deob/transform/ConstantArgTransformer.kt:200-226 | the outcome of one jump is its branch fate |
| ConstantArg.ConstantArgTransformer.InlineConstantArgs | deob/src/main/java/dev/openrs2/deob/transform/ConstantArgTransformer.kt:247-296 | the method's code and the returned count are those of recording the constant candidates and replacing each by a constant load |
| ConstantArg.ConstantArgTransformer.FindConstants | deob/src/main/java/dev/openrs2/deob/transform/ConstantArgTransformer.kt:251-280 | `constInsns` is the list of candidates in instruction order |
| ConstantArg.ConstantArgTransformer.ReplaceConstants | deob/src/main/java/dev/openrs2/deob/transform/ConstantArgTransformer.kt:282-295 | the loop computes the inlining and its count |
| ConstantArg.ConstantArgTransformer.Candidate | deob/src/main/java/dev/openrs2/deob/transform/ConstantArgTransformer.kt:254-279 | the constant recorded for one instruction is its inline value |
| ConstantArg.ConstantArgTransformer.TransformCode | deob/src/main/java/dev/openrs2/deob/transform/ConstantArgTransformer.kt:298-303 | it returns false; the code is branch-simplified then constant-inlined with the method's arguments, and each counter rises by its pass's count |
| ConstantArg.FramesRecordedStep | deob/src/main/java/dev/openrs2/deob/transform/ConstantArgTransformer.kt:138-163 | the invariant of the frame loop advances by one frame |
| ConstantArg.ArgsRecordedStep | deob/src/main/java/dev/openrs2/deob/transform/ConstantArgTransformer.kt:152-158 | the invariant of the argument loop advances by one argument and one value width |
| ConstantArg.CallSiteDone | deob/src/main/java/dev/openrs2/deob/transform/ConstantArgTransformer.kt:143-162 | the argument loop followed by the argless check records exactly the call site's contributions |
| BitShift.ShiftMask | deob/src/main/java/dev/openrs2/deob/transform/BitShiftTransformer.java:35 | the mask is 63 exactly for `LSHL`/`LSHR`/`LUSHR` and 31 for every other shift |
| BitShift.Masked | deob/src/main/java/dev/openrs2/deob/transform/BitShiftTransformer.java:35 | the masked distance lies in 0..mask, is congruent to the original modulo mask + 1, and equals the original when it is already in range |
| BitShift.MaskOne | deob/src/main/java/dev/openrs2/deob/transform/BitShiftTransformer.java:31-40 | masking one match keeps the instruction count |
| BitShift.MaskAll | deob/src/main/java/dev/openrs2/deob/transform/BitShiftTransformer.java:30-41 | masking all matches keeps the instruction count |
| BitShift.ReplacedExactlyWhenChanged | deob/src/main/java/dev/openrs2/deob/transform/BitShiftTransformer.java:37-40 | the push is replaced exactly when the masked value differs, and the new push loads the masked value |
| BitShift.OnlyPushesChange | deob/src/main/java/dev/openrs2/deob/transform/BitShiftTransformer.java:30-41 | an instruction that is no match's push is left as it was |
| BitShift.AllMasked | deob/src/main/java/dev/openrs2/deob/transform/BitShiftTransformer.java:30-41 | after the pass every matched push holds a distance within its shift's range |
| BitShift.LastMasked | deob/src/main/java/dev/openrs2/deob/transform/BitShiftTransformer.java:30-41 | masking one more match keeps the earlier ones masked |
| BitShift.ShiftUntouched | deob/src/main/java/dev/openrs2/deob/transform/BitShiftTransformer.java:34 | masking the earlier matches never changes a matched shift instruction |
| BitShift.MatchesPairs | deob/src/main/java/dev/openrs2/deob/transform/BitShiftTransformer.java:18 | each matched push is a constant load and each matched shift is not |
| BitShift.PairsMasked | deob/src/main/java/dev/openrs2/deob/transform/BitShiftTransformer.java:30-41 | after masking all matches every matched push holds a distance within its shift's range |
| BitShift.MaskedAfterOne | deob/src/main/java/dev/openrs2/deob/transform/BitShiftTransformer.java:35-40 | masking one match puts its push in range and keeps an earlier masked match in range |
| BitShift.MaskOneElsewhere | deob/src/main/java/dev/openrs2/deob/transform/BitShiftTransformer.java:38 | masking one match changes no position but its push |
| BitShift.MaskedIsFixed | deob/src/main/java/dev/openrs2/deob/transform/BitShiftTransformer.java:35-40 | over already-masked code the pass changes nothing and makes no replacement |
| BitShift.Idempotent | deob/src/main/java/dev/openrs2/deob/transform/BitShiftTransformer.java:35-40 | a second pass over masked code changes nothing and leaves the counter where it was |
| BitShift.BitShiftTransformer.constructor | deob/src/main/java/dev/openrs2/deob/transform/BitShiftTransformer.java:21 | the counter starts at zero |
| BitShift.BitShiftTransformer.PreTransform | deob/src/main/java/dev/openrs2/deob/transform/BitShiftTransformer.java:24-26 | the counter is reset to zero |
| BitShift.BitShiftTransformer.TransformCode | deob/src/main/java/dev/openrs2/deob/transform/BitShiftTransformer.java:29-44 | it returns false; the new code is the old one with every matched push masked, the counter rises by the number of changed pushes, nothing but pushes changes, and every matched push ends in range |
| BitShift.PushUntouched | deob/src/main/java/dev/openrs2/deob/transform/BitShiftTransformer.java:30-41 | a push not yet visited still holds its original constant |
| BitShift.MaskingStep | deob/src/main/java/dev/openrs2/deob/transform/BitShiftTransformer.java:31-40 | the loop invariant advances by one match |
| BitShift.MaskingDone | deob/src/main/java/dev/openrs2/deob/transform/BitShiftTransformer.java:30-41 | at the end of the loop the code is the masked code and the count is the number of replacements |
| ClassNodeRemapper.RemapInsn | asm/src/main/java/dev/openrs2/asm/ClassNodeRemapper.kt:58-78 | a frame fails with the frames message and `invokedynamic` fails without one; every other instruction succeeds; a failing instruction is left unchanged |
| ClassNodeRemapper.RemapInsnShape | asm/src/main/java/dev/openrs2/asm/ClassNodeRemapper.kt:61-77 | field and method instructions take owner and name from the lookup with the original owner, name and descriptor, and the descriptor through `mapDesc`; type, `LDC` and multi-array instructions are mapped; every other kind is untouched |
| ClassNodeRemapper.RemapInsnIdentity | asm/src/main/java/dev/openrs2/asm/ClassNodeRemapper.kt:58-78 | under the identity remapper a supported instruction is unchanged |
| ClassNodeRemapper.FirstUnsupported | asm/src/main/java/dev/openrs2/asm/ClassNodeRemapper.kt:48-50 | the first frame or `invokedynamic` of the code, or none |
| ClassNodeRemapper.RemapPrefix | asm/src/main/java/dev/openrs2/asm/ClassNodeRemapper.kt:48-50 | instructions before the failure point are remapped in place, the rest kept, ids kept |
| ClassNodeRemapper.RemapCodeShape | asm/src/main/java/dev/openrs2/asm/ClassNodeRemapper.kt:48-73 | the instruction loop fails exactly when the code holds a frame or `invokedynamic`, with the frames message when a frame comes first; length, node identities and instruction kinds are kept |
| ClassNodeRemapper.RemapCodeIdentity | asm/src/main/java/dev/openrs2/asm/ClassNodeRemapper.kt:48-50 | under the identity remapper supported code is unchanged |
| ClassNodeRemapper.MapTypes | asm/src/main/java/dev/openrs2/asm/ClassNodeRemapper.kt:21-43 | the list is mapped element by element with `mapType`, keeping length and order |
| ClassNodeRemapper.RemapTryCatches | asm/src/main/java/dev/openrs2/asm/ClassNodeRemapper.kt:52-54 | each try-catch block has only its type mapped; length and order are kept |
| ClassNodeRemapper.ListsIdentity | asm/src/main/java/dev/openrs2/asm/ClassNodeRemapper.kt:21-53 | under the identity remapper the mapped lists and nullable names are unchanged |
| ClassNodeRemapper.RemapMethodOutcome | asm/src/main/java/dev/openrs2/asm/ClassNodeRemapper.kt:39-56 | a method remap fails exactly when it has code that, after the `ClassForNameUtils` rewrite, holds a frame or `invokedynamic`; then its try-catch blocks are left alone; exceptions and try-catch lists keep their length; a method without code keeps its code and table |
| ClassNodeRemapper.RemapIdentity | asm/src/main/java/dev/openrs2/asm/ClassNodeRemapper.kt:16-77 | under the identity remapper a field, a method with supported code, and the class header are unchanged |
| ClassNodeRemapper.RemapField | asm/src/main/java/dev/openrs2/asm/ClassNodeRemapper.kt:32-37 | the field's name is looked up with the owner, name and original descriptor; descriptor, signature (as a type signature) and value are mapped |
| ClassNodeRemapper.RemapMethod | asm/src/main/java/dev/openrs2/asm/ClassNodeRemapper.kt:39-56 | the method node holds the remapped name, descriptor, signature and exceptions, and, when it has code, the remapped instructions and try-catch types; the outcome is the instruction loop's |
| ClassNodeRemapper.RemapInstructions | asm/src/main/java/dev/openrs2/asm/ClassNodeRemapper.kt:48-50 | the loop computes the remapped code and stops at the first unsupported instruction |
| ClassNodeRemapper.RemapTryCatchTypes | asm/src/main/java/dev/openrs2/asm/ClassNodeRemapper.kt:52-54 | the loop maps each try-catch type |
| ClassNodeRemapper.RemapClass | asm/src/main/java/dev/openrs2/asm/ClassNodeRemapper.kt:16-30 | name, superclass and interfaces go through `mapType`; every field and method is remapped under the class's original name; a failing method stops the walk, leaving the later methods unchanged |
| ClassNodeRemapper.RemapHeaderFields | asm/src/main/java/dev/openrs2/asm/ClassNodeRemapper.kt:17-21 | the class's own four assignments |
| ClassNodeRemapper.RemapFields | asm/src/main/java/dev/openrs2/asm/ClassNodeRemapper.kt:23-25 | every field is remapped with the given owner |
| ClassNodeRemapper.RemapMethods | asm/src/main/java/dev/openrs2/asm/ClassNodeRemapper.kt:27-29 | every method up to the first failure is remapped; the failing one holds its partial remap; later ones are unchanged |
| IfElse.NegateFlips | deob-ast/src/main/java/dev/openrs2/deob/ast/transform/IfElseTransformer.java:44-61 | negating a condition flips whether it is a negation, and negating twice restores it |
| IfElse.GetIf | deob-ast/src/main/java/dev/openrs2/deob/ast/transform/IfElseTransformer.java:21-35 | an if is returned for exactly the if-like statements: the statement itself, or the sole if inside a one-statement block; none where the source throws |
| IfElse.FirstPassRule | deob-ast/src/main/java/dev/openrs2/deob/ast/transform/IfElseTransformer.java:41-64 | an if-like then with a plain else is swapped with the condition negated; a plain then with an if-like else is left alone; otherwise a negated condition is swapped; a swap leaves the new then-branch unlinked from the if, and an if left alone keeps its link |
| IfElse.SecondPassRule | deob-ast/src/main/java/dev/openrs2/deob/ast/transform/IfElseTransformer.java:70-72 | an if-like else becomes its inner if, any other else is kept |
| IfElse.SecondPassStep | deob-ast/src/main/java/dev/openrs2/deob/ast/transform/IfElseTransformer.java:68-74 | the second pass unwraps an if's else and descends into it, and descends into the then-branch only while it is linked; an unlinked then-branch is left as it is |
| IfElse.FirstPassKeepsKind | deob-ast/src/main/java/dev/openrs2/deob/ast/transform/IfElseTransformer.java:39-66 | the first pass keeps each statement's kind and whether it is if-like |
| IfElse.SecondPassKeepsKind | deob-ast/src/main/java/dev/openrs2/deob/ast/transform/IfElseTransformer.java:68-74 | the second pass keeps each statement's kind and whether it is if-like |
| IfElse.NoElseUntouched | deob-ast/src/main/java/dev/openrs2/deob/ast/transform/IfElseTransformer.java:40-69 | a tree without any else is left unchanged by both passes |
| IfElse.FirstPassMovesIfLast | deob-ast/src/main/java/dev/openrs2/deob/ast/transform/IfElseTransformer.java:43-54 | after the first pass no if has an if-like then with a plain else |
| IfElse.SecondPassUnwraps | deob-ast/src/main/java/dev/openrs2/deob/ast/transform/IfElseTransformer.java:68-74 | after the second pass no else it reaches through child lists is a block holding a single if, and the first pass's property is kept everywhere |
| IfElse.TransformShape | deob-ast/src/main/java/dev/openrs2/deob/ast/transform/IfElseTransformer.java:37-75 | after `transform` no if has an if-like then with a plain else, and no else that the second pass reaches is a one-if block |
| IfElse.SwappedThenKeepsBlockElse | deob-ast/src/main/java/dev/openrs2/deob/ast/transform/IfElseTransformer.java:43-46 | in a unit with every link in place, `if (c) { if (x) a(); } else { s(); if (y) b(); else { if (z) w(); } }` still holds an else that is a one-if block after `transform` |
| IfElse.SecondPassAllAgrees | deob-ast/src/main/java/dev/openrs2/deob/ast/transform/IfElseTransformer.java:68-74 | on a tree whose then-branches are all linked, the second pass as written equals the one that reaches every if |
| IfElse.SecondPassAllUnwraps | deob-ast/src/main/java/dev/openrs2/deob/ast/transform/IfElseTransformer.java:68-74 | the second pass over every if leaves no else that is a one-if block, and keeps the first pass's property |
| IfElse.IntendedShape | deob-ast/src/main/java/dev/openrs2/deob/ast/transform/IfElseTransformer.java:37-75 | `transform` with the second pass over every if leaves an `if ... else if ...` chain everywhere: no if-like then beside a plain else, and no one-if block as an else |
| ArgumentMapping.TotalArgumentsRemove | deob/src/main/java/dev/openrs2/deob/remap/ArgumentMappingGenerator.kt:12-16 | the total argument count splits into one method's count plus the rest |
| ArgumentMapping.Restrict | deob/src/main/java/dev/openrs2/deob/remap/ArgumentMappingGenerator.kt:12 | the name map restricted to some methods keeps those entries |
| ArgumentMapping.ArgumentMappingGenerator.constructor | deob/src/main/java/dev/openrs2/deob/remap/ArgumentMappingGenerator.kt:6-8 | the generator holds the given name map |
| ArgumentMapping.ArgumentMappingGenerator.Generate | deob/src/main/java/dev/openrs2/deob/remap/ArgumentMappingGenerator.kt:9-20 | the result maps `ArgRef(method, index)` to each argument name, every key comes from the name map, and the size is the total number of argument entries |
| ArgumentMapping.ProgressDone | deob/src/main/java/dev/openrs2/deob/remap/ArgumentMappingGenerator.kt:12-19 | when every method has been visited the map is complete and of the right size |
| ArgumentMapping.ProgressStep | deob/src/main/java/dev/openrs2/deob/remap/ArgumentMappingGenerator.kt:12-16 | visiting one method keeps the outer loop invariant |
| ArgumentMapping.CountStep | deob/src/main/java/dev/openrs2/deob/remap/ArgumentMappingGenerator.kt:12-16 | the count of visited arguments grows by the visited method's argument count |
| ArgumentMapping.FlattensStep | deob/src/main/java/dev/openrs2/deob/remap/ArgumentMappingGenerator.kt:12-16 | the entries of one more method are flattened into the map |
| ArgumentMapping.AddArguments | deob/src/main/java/dev/openrs2/deob/remap/ArgumentMappingGenerator.kt:13-16 | the inner loop adds every `(index, name)` of one method and nothing else |
| ArgumentMapping.InnerStep | deob/src/main/java/dev/openrs2/deob/remap/ArgumentMappingGenerator.kt:14-15 | one insertion advances the inner loop invariant |
| ArgumentMapping.InnerDone | deob/src/main/java/dev/openrs2/deob/remap/ArgumentMappingGenerator.kt:13-16 | the finished inner loop adds exactly that method's arguments |
| ArgumentMapping.InsertStep | deob/src/main/java/dev/openrs2/deob/remap/ArgumentMappingGenerator.kt:14-15 | one insertion records one more index |
| ArgumentMapping.NotYetInserted | deob/src/main/java/dev/openrs2/deob/remap/ArgumentMappingGenerator.kt:14-15 | a key of the method not yet visited is not in the map, so every insertion adds a new key |

## Findings

| source | as written | input that shows it | evidently intended | confidence | as-written member | corrected member |
|---|---|---|---|---|---|---|
| deob-ast/src/main/java/dev/openrs2/deob/ast/transform/IfElseTransformer.java:45-46, 62-63, 68 | a swap calls `setThenStmt(elseStmt)` and then `setElseStmt(thenStmt)`; the second setter unlinks the old else, now the then-branch, so the second `findAll` never reaches the ifs inside it | `if (c) { if (x) a(); } else { s(); if (y) b(); else { if (z) w(); } }`: the outer if is swapped, and `else { if (z) w(); }` is never turned into `else if (z) w();` | every else holding a single if, wherever it is, is unwrapped into an `else if` chain | medium; not executed; rests on JavaParser's setter behaviour, whose code is not part of this model | IfElse.SwappedThenKeepsBlockElse | IfElse.IntendedShape |

## Left out

- The ASM `Analyzer` with `IntInterpreter` (given the method's owner, descriptor, access flags, exception table and instructions), `IntBranch.evaluateUnary`/`evaluateBinary`, `isPure`, `stackMetadata.pushes`, `Type.getArgumentTypes` and `TypedRemapper.isMethodRenamable` are function-valued fields of `ConstantArgInputs.Env`. Their code is not part of this model, and nothing is assumed about them beyond their types.
- `replaceExpression`/`deleteExpression`: the search for an expression's operands is the abstract `Env.expressionStart`. Only the splice those functions then perform is modelled (`ConstantArgInputs.ReplaceExpression`, `ConstantArgInputs.DeleteExpression`).
- `ClassPath.createInheritedMethodSets` and the `DisjointSet` are inputs: `ConstantArgInputs.ClassPath` carries the finished partitions. `ValidSets` states the disjointness the transformer relies on.
- `IntValueSet` is not part of this model. Its `union` is modelled as the lattice join: `Unknown` absorbs, and two constant sets take their union. `singleton` is modelled as the only element of a one-element constant set.
- Logging in `postTransform` of both transformers, the `Transformer` base class and the Guice wiring are left out. They have no effect on the state.
- `InsnMatcher` compilation is left out. The matcher's result is an input: the list of adjacent (push, shift) index pairs, `BitShift.Matches`.
- `ClassForNameUtils.remap` is not part of this model. It is the abstract `Remapper.remapClassForName`, applied to the instruction list before the loop. The `ExtendedRemapper` implementations are the abstract function fields of `Remapper`.
- `ExprUtils.not`/`isNot` are not part of this model. A `Not` constructor stands in for them: `Negate` strips one `Not` or adds one.
- I/O: `preTransform` reads only the class path passed to it, which the model takes as a value.
- ConstantArg.ConstantArgTransformer.PreTransform: requires the inherited method sets to be a valid partition (`ValidSets`) and does not otherwise model `createInheritedMethodSets`.
- ConstantArg.ConstantArgTransformer.AddCallSite: reads frames defensively. A stack shorter than the argument count reads `Unknown` values of width 1, and a frame index past the end reads as unreachable. The source would throw there; the ASM analyzer never produces such frames.
- ConstantArgCode.InlineValue, ConstantArgCode.BranchFate, ConstantArg.ConstantArgTransformer.Fate and ConstantArg.ConstantArgTransformer.Candidate read frames the same defensive way: a missing frame at the next real instruction means no constant is recorded, where the source would throw a `NullPointerException`, and a stack too short for the jump's operands reads `Unknown`, so the jump stays undecided, where `getStack` would throw.
- The class path's methods are values (`MethodInfo`), since discovery only reads them. `originalMethod.copy()` is therefore the construction of a fresh `MethodNode` from every field of that value, in `ConstantArg.ConstantArgTransformer.AnalyzeMethod`.
- ClassNodeRemapper.RemapClass: requires the field list and the method list each to hold distinct node objects. ASM class nodes never list one node twice; the model does not cover a class whose list aliases a node.
- Field and method instruction owners, names and descriptors, type descriptors and `LDC` constants are values. A `null` superclass, catch type or field value stays `null`, as ASM's `Remapper.mapType`/`mapValue` return `null` for `null`.
- IfElse.TransformShape: the two passes are modelled on values, as structural recursion over the tree. Of the in-place `set*` calls, the model keeps their values and one effect on the tree's links: a swap unlinks the new then-branch from the if's child list (`Stmt.If.thenAttached`), which decides what the second pass reaches. The rules read only the kind of each if's children, so the `findAll` visiting order does not matter; object identity, sharing of nodes and the links of conditions and else-branches are not modelled. JavaParser's setters are not part of this model; the unlinking follows their replace-and-reparent behaviour (the replaced node loses its parent).
- Conditions are a small `Expr` (`Not` or an opaque condition). Expressions that contain statements, such as lambdas, are not searched for nested ifs.
- The Kotlin map iteration order in `generate` is not modelled. Argument names are keyed by distinct `ArgRef`s, so the result does not depend on it.

