# A verified model of the Java-- compiler back end and its rule-based passes

This project models the parts of the course compiler (`pt.up.fe.comp2025`) that decide
something. The compiler translates a Java-subset teaching language, through the OLLIR
three-address intermediate representation, into Jasmin assembler text for the JVM. Each
decision is proved against a specification of what it means.

- **Register allocation** (`RegisterAllocation.java`), as classes over maps and sequences:
  - per-instruction def/use sets;
  - the iterative backward liveness fixpoint over the successor lists of the control-flow graph;
  - interference-graph construction from `def ∪ liveOut`;
  - simplify/select colouring with the parameter and receiver slots reserved;
  - write-back of the chosen slots into the variable table;
  - the per-method error policy of `allocateRegisters`.
- **Jasmin emission** (`JasminGenerator.java`, `JasminUtils.java`):
  - instruction selection for constants, loads and stores;
  - `iinc` fusion;
  - the branch, arithmetic and return mnemonic tables;
  - method descriptors, following section 4.3.3 of the Java Virtual Machine Specification;
  - the method header;
  - the `.limit stack` and `.limit locals` calculators;
  - the cached `build` of the whole class.
- **Name helpers** (`OptUtils.java`): per-prefix temporary counters, the label counter and the
  OLLIR type-suffix table.
- **AST optimisations**:
  - constant folding of binary operations in 32-bit Java `int` arithmetic;
  - constant propagation as a preorder visitor: the handler registered for a method, a loop, an
    assignment or a variable read updates one shared constant map, and the visitor then visits the
    children of the node once more. Variables that some loop modifies never enter the map, and the
    handlers rewrite nothing inside a loop; the second visit of the children does, which is one of
    the defects listed under "## Findings".
- **Semantic checks**:
  - identifier resolution;
  - the position of a varargs parameter;
  - call arity and argument types with a varargs tail;
  - duplicate declarations, in the analysis pass and in the symbol-table builder.

Java `int` arithmetic wraps at 32 bits and its division truncates toward zero. Both are written
out in `int32.dfy`, because Dafny's integers are unbounded and its division is Euclidean. An
exception the source can throw (`NullPointerException`, `IndexOutOfBoundsException`,
`NumberFormatException`, `NotImplementedException`) is an `Err` of a `Result`.

Where the code is wrong, the model keeps an as-written member and proves the discrepancy on a
concrete input. The rest of the model uses the corrected definition (see "## Findings"). Built on
the corrected liveness sets are `Liveness.Defs`, `Liveness.Uses`,
`Liveness.LivenessAnalysis.Analyze` and `CalculateDefUseSets`, the interference graph of
`RegisterAllocation.BuildInterference` and `ColorInterference`, and the allocation promises of
`RegisterAllocation.AllocateRegistersForMethod`, `AllocateNonEmpty`, `AllocateAndReport` and
`RegisterAllocation.RegisterAllocation.AllocateRegisters`. The corrected use sets are wider than the
source's in several ways, which `Liveness.CorrectedDefUseRefine` states exactly: the index of an
array access and the array of an element store are read, a field read's object and a field
store's object and value are read, and an instruction that is a bare operation reads its operands. Built on the corrected comparison, the
corrected `iinc` fusion and the corrected stack limit are `JasminCode.GenerateBinaryOp`,
`GenerateAssign`, `GenerateInstruction` and `ElementAssignOrder`, `JasminLimits.StackLimit` and
`CalculateStackLimit`, `JasminGenerator.MethodCode` and `ClassCode`, and the class methods
`JasminGenerator.JasminGenerator.GenerateClassUnit`, `GenerateMethods`, `AppendMethod` and
`GenerateMethod`. Their rows below say "corrected", and the "## Left out" section names each of them
with the finding it departs from. Constant propagation is the other way round: the visitor class computes
the traversal as written, and the intended one is a separate `Corrected` walk.

## Model

| member | source | states |
|---|---|---|
| Liveness.OperandName | src/main/pt/up/fe/comp2025/optimization/RegisterAllocation.java:187-191 | only an `Operand` (array operands included) contributes a name; literals contribute nothing and `this` is never a member |
| Liveness.OperandNames | src/main/pt/up/fe/comp2025/optimization/RegisterAllocation.java:199-206 | the names of a list of elements are exactly the names each element contributes, and never `this` |
| Liveness.DefAsWritten | src/main/pt/up/fe/comp2025/optimization/RegisterAllocation.java:184-192 | as written: only an ASSIGN defines a name, at most its destination's, never `this`; any other instruction defines nothing |
| Liveness.RhsUsesAsWritten | src/main/pt/up/fe/comp2025/optimization/RegisterAllocation.java:246-307 | as written: the uses of an assignment's right-hand side never contain `this` |
| Liveness.UseAsWritten | src/main/pt/up/fe/comp2025/optimization/RegisterAllocation.java:178-244 | as written: GOTO, PUTFIELD and GETFIELD fall into the default case and use nothing; no use set contains `this` |
| Liveness.ReadNames | src/main/pt/up/fe/comp2025/optimization/RegisterAllocation.java:187-191 | corrected reading of an element: contains what the source reads plus an array access's index names; a literal reads nothing; never `this` |
| Liveness.ReadNamesOf | src/main/pt/up/fe/comp2025/optimization/RegisterAllocation.java:199-206 | corrected reading of an element list: includes every operand name the source collects, never `this` |
| Liveness.RhsUses | src/main/pt/up/fe/comp2025/optimization/RegisterAllocation.java:246-307 | corrected right-hand-side uses: every name the right-hand side's elements read, which includes every use the source collects plus array indices and the object of a field read, never `this` |
| Liveness.Def | src/main/pt/up/fe/comp2025/optimization/RegisterAllocation.java:184-192 | corrected def set: only an ASSIGN to a plain operand defines, exactly its destination, and agrees with the source there; never `this` |
| Liveness.Use | src/main/pt/up/fe/comp2025/optimization/RegisterAllocation.java:178-244 | corrected use set: never `this`; GOTO uses nothing; what it adds to the source's set is stated by `CorrectedDefUseRefine` |
| Liveness.Defs | src/main/pt/up/fe/comp2025/optimization/RegisterAllocation.java:178-244 | corrected: one def set per instruction, in order, each the corrected set of that instruction |
| Liveness.Uses | src/main/pt/up/fe/comp2025/optimization/RegisterAllocation.java:178-244 | corrected: one use set per instruction, in order, each the corrected set of that instruction |
| Liveness.CorrectedDefUseRefine | src/main/pt/up/fe/comp2025/optimization/RegisterAllocation.java:178-307 | the corrected sets only add uses and only drop definitions, and a definition is dropped only for an assignment to an array element; the corrected use set is every name the instruction's elements read (the array target of an element store, the operands of an operation or call, a field access's object, a stored field value, a returned value, a branch condition); where the source's switch handles the instruction (an assignment whose right-hand side is not a field read, a call, a return, a branch) it adds exactly the names read by array accesses, and on every other instruction the source's use set is empty |
| Liveness.ArrayReads | src/main/pt/up/fe/comp2025/optimization/RegisterAllocation.java:187-191 | the names the array accesses in a list of elements read are among the names the list reads |
| Liveness.ReadNamesOfSplit | src/main/pt/up/fe/comp2025/optimization/RegisterAllocation.java:199-206 | the names a list of elements reads are its operand names together with the names its array accesses read |
| Liveness.RhsElementsRead | src/main/pt/up/fe/comp2025/optimization/RegisterAllocation.java:246-307 | the corrected uses of a right-hand side are the names its elements read; except for a field read, they are the source's uses plus the array accesses' reads; for a field read the source uses nothing |
| Liveness.OutOfMembers | src/main/pt/up/fe/comp2025/optimization/RegisterAllocation.java:319-324 | a name is in the new live-out set exactly when it is live-in at some successor that is an instruction; successors outside the instruction list are ignored |
| Liveness.OutOfMonotone | src/main/pt/up/fe/comp2025/optimization/RegisterAllocation.java:319-324 | the union over successors is monotone in the live-in sets |
| Liveness.OutOfBounded | src/main/pt/up/fe/comp2025/optimization/RegisterAllocation.java:319-324 | the union over successors stays inside any bound of the live-in sets |
| Liveness.LeastSolutionUnique | src/main/pt/up/fe/comp2025/optimization/RegisterAllocation.java:309-339 | the least solution of the liveness equations is unique, so the fixpoint is determined by the program |
| Liveness.DeficitGrow | src/main/pt/up/fe/comp2025/optimization/RegisterAllocation.java:312-337 | growing one set towards the bound never raises the distance to it, and a real change lowers it (why `while (changed)` stops) |
| Liveness.HoldsBelowStep | src/main/pt/up/fe/comp2025/optimization/RegisterAllocation.java:315-337 | after instruction `i` satisfies both equations, the equations hold at every instruction up to `i` |
| Liveness.HoldsBelowAll | src/main/pt/up/fe/comp2025/optimization/RegisterAllocation.java:309-339 | equations holding at every instruction make a solution |
| Liveness.EmptyApproximation | src/main/pt/up/fe/comp2025/optimization/RegisterAllocation.java:159-164 | the empty sets the analysis starts from lie below every solution and below one more application of the equations |
| Liveness.ApproximateSolutionIsLeast | src/main/pt/up/fe/comp2025/optimization/RegisterAllocation.java:309-339 | a solution reached from below every solution is the least solution |
| Liveness.StepKeepsApproximation | src/main/pt/up/fe/comp2025/optimization/RegisterAllocation.java:316-332 | recomputing one instruction's live-out and live-in only grows them, keeps them below every solution and below the bound |
| Liveness.LivenessAnalysis.constructor | src/main/pt/up/fe/comp2025/optimization/RegisterAllocation.java:148-154 | a new analysis holds the method, is not analysed and has empty maps |
| Liveness.LivenessAnalysis.Analyze | src/main/pt/up/fe/comp2025/optimization/RegisterAllocation.java:156-176 | corrected: after `analyze()` the def and use sets are those of the instructions and the live sets are the least solution of both liveness equations; a second call changes nothing |
| Liveness.LivenessAnalysis.CalculateDefUseSets | src/main/pt/up/fe/comp2025/optimization/RegisterAllocation.java:178-244 | corrected: fills in the def and use set of every instruction and changes nothing else |
| Liveness.LivenessAnalysis.CalculateLiveInOut | src/main/pt/up/fe/comp2025/optimization/RegisterAllocation.java:309-339 | from empty sets, the `while (changed)` loop stops with `liveOut(i)` the union of the successors' `liveIn` and `liveIn(i) = use(i) ∪ (liveOut(i) − def(i))` at every instruction, and this is the least such solution |
| Liveness.LivenessAnalysis.Pass | src/main/pt/up/fe/comp2025/optimization/RegisterAllocation.java:313-337 | one sweep over the instructions keeps the approximation; a sweep that reports a change strictly shrinks the distance to the bound, and one that does not leaves a solution |
| Liveness.LivenessAnalysis.JoinSuccessors | src/main/pt/up/fe/comp2025/optimization/RegisterAllocation.java:319-324 | the new live-out set is the union of the live-in sets of the successors that are instructions |
| Liveness.LivenessAnalysis.UpdateInstruction | src/main/pt/up/fe/comp2025/optimization/RegisterAllocation.java:316-336 | recomputes one instruction; reports a change exactly when a set grew, and when it does not, that instruction satisfies both equations |
| LivenessFindings.ArrayReadDefsAsWritten | src/main/pt/up/fe/comp2025/optimization/RegisterAllocation.java:184-192 | the def sets the source computes for the array-read program |
| LivenessFindings.ArrayReadUsesAsWritten | src/main/pt/up/fe/comp2025/optimization/RegisterAllocation.java:187-193 | the use sets the source computes for `x := a[i]`: `a`, but not the index `i` |
| LivenessFindings.ArrayReadLeastAsWritten | src/main/pt/up/fe/comp2025/optimization/RegisterAllocation.java:309-339 | the least liveness solution of the array-read program under the source's sets, in which `i` is never live |
| LivenessFindings.ArrayIndexIgnoredAsWritten | src/main/pt/up/fe/comp2025/optimization/RegisterAllocation.java:374-390 | under the source's sets `i` and `j` do not interfere, so they may share a register although `i` is read while `j` is live |
| LivenessFindings.ArrayIndexUsedCorrected | src/main/pt/up/fe/comp2025/optimization/RegisterAllocation.java:374-390 | under the corrected sets `i` and `j` interfere in every solution of the equations |
| LivenessFindings.FieldStoreSetsAsWritten | src/main/pt/up/fe/comp2025/optimization/RegisterAllocation.java:240-241 | the source's sets for the field-store program: the stored value `v` is never used |
| LivenessFindings.FieldStoreLeastAsWritten | src/main/pt/up/fe/comp2025/optimization/RegisterAllocation.java:309-339 | the least liveness solution of the field-store program under the source's sets |
| LivenessFindings.FieldValueIgnoredAsWritten | src/main/pt/up/fe/comp2025/optimization/RegisterAllocation.java:374-390 | under the source's sets `v` and `w` do not interfere, although `v` is stored while `w` is live |
| LivenessFindings.FieldValueUsedCorrected | src/main/pt/up/fe/comp2025/optimization/RegisterAllocation.java:374-390 | under the corrected sets `v` and `w` interfere in every solution |
| LivenessFindings.FieldReadSetsAsWritten | src/main/pt/up/fe/comp2025/optimization/RegisterAllocation.java:304-305 | the source's sets for the field-read program: the object `o` of `getfield(o, f)` is never used |
| LivenessFindings.FieldReadLeastAsWritten | src/main/pt/up/fe/comp2025/optimization/RegisterAllocation.java:309-339 | the least liveness solution of the field-read program under the source's sets, in which `o` is never live |
| LivenessFindings.FieldObjectIgnoredAsWritten | src/main/pt/up/fe/comp2025/optimization/RegisterAllocation.java:374-390 | under the source's sets `o` and `x` do not interfere, although `o` is read while `x` is live |
| LivenessFindings.FieldObjectUsedCorrected | src/main/pt/up/fe/comp2025/optimization/RegisterAllocation.java:374-390 | under the corrected sets `o` and `x` interfere in every solution |
| Interference.LocalVariables | src/main/pt/up/fe/comp2025/optimization/RegisterAllocation.java:102-114 | the allocation candidates are exactly the variable-table entries with scope LOCAL whose name is not `this` |
| Interference.SoundGrow | src/main/pt/up/fe/comp2025/optimization/RegisterAllocation.java:374-390 | an edge justified by the first `n` instructions stays justified by the first `n + 1` |
| Interference.Characterization | src/main/pt/up/fe/comp2025/optimization/RegisterAllocation.java:367-397 | a sound and complete graph has an edge between `v` and `w` exactly when they are distinct candidates that both lie in `def(i) ∪ liveOut(i)` for some instruction `i` |
| Interference.CompleteStep | src/main/pt/up/fe/comp2025/optimization/RegisterAllocation.java:378-389 | once every pair of the list for instruction `k` is joined, every interfering pair of candidates up to `k` is adjacent |
| Interference.InterferenceGraph.constructor | src/main/pt/up/fe/comp2025/optimization/RegisterAllocation.java:360-365 | a new graph has no nodes and no edges |
| Interference.InterferenceGraph.Neighbors | src/main/pt/up/fe/comp2025/optimization/RegisterAllocation.java:415-417 | the neighbours of a node, and the empty set for a node without an entry (`getOrDefault`) |
| Interference.InterferenceGraph.Degree | src/main/pt/up/fe/comp2025/optimization/RegisterAllocation.java:419-421 | the degree is the number of neighbours, 0 for a node without an entry |
| Interference.InterferenceGraph.DegreeBound | src/main/pt/up/fe/comp2025/optimization/RegisterAllocation.java:419-421 | in a simple graph a node has fewer neighbours than there are nodes |
| Interference.InterferenceGraph.Build | src/main/pt/up/fe/comp2025/optimization/RegisterAllocation.java:367-397 | the nodes are the candidates (same set as `getLocalVariablesToAllocate`); the graph is symmetric and loop-free and `v`–`w` is an edge exactly when both are candidates, distinct, and together in `def(i) ∪ liveOut(i)` for some instruction |
| Interference.InterferenceGraph.AddInterferences | src/main/pt/up/fe/comp2025/optimization/RegisterAllocation.java:374-389 | handling one instruction keeps the graph simple and sound and makes it complete for that instruction |
| Interference.InterferenceGraph.ScanRow | src/main/pt/up/fe/comp2025/optimization/RegisterAllocation.java:379-388 | one pass of the inner loop joins row `a` of the pair list to every later element |
| Interference.InterferenceGraph.AddEdge | src/main/pt/up/fe/comp2025/optimization/RegisterAllocation.java:384-387 | adds the edge both ways and keeps the graph simple and sound |
| Interference.InterferenceGraph.RemoveVariable | src/main/pt/up/fe/comp2025/optimization/RegisterAllocation.java:423-431 | `removeVariable(v)` deletes `v` and every edge incident to it; all other adjacency is unchanged and the graph stays simple |
| Interference.InterferenceGraph.DropEdgesTo | src/main/pt/up/fe/comp2025/optimization/RegisterAllocation.java:425-429 | removes `v` from exactly the former neighbours' adjacency sets |
| Interference.ConnectKeeps | src/main/pt/up/fe/comp2025/optimization/RegisterAllocation.java:385-386 | joining two nodes adds exactly that edge in both directions and nothing else |
| Interference.ConnectIsGraph | src/main/pt/up/fe/comp2025/optimization/RegisterAllocation.java:384-387 | joining two distinct candidates keeps the graph symmetric and loop-free |
| Interference.ConnectSound | src/main/pt/up/fe/comp2025/optimization/RegisterAllocation.java:375-387 | joining two names that both interfere at an instruction keeps every edge justified |
| Interference.ConnectComplete | src/main/pt/up/fe/comp2025/optimization/RegisterAllocation.java:384-387 | adding an edge never loses completeness |
| Interference.ConnectPairsDone | src/main/pt/up/fe/comp2025/optimization/RegisterAllocation.java:380-388 | joining the current pair advances the scan by one column |
| Interference.PairsSkip | src/main/pt/up/fe/comp2025/optimization/RegisterAllocation.java:384 | a pair with a non-candidate is skipped without breaking the scan |
| Interference.PairsRowDone | src/main/pt/up/fe/comp2025/optimization/RegisterAllocation.java:379-380 | a finished row continues at the next row |
| Interference.RemovedIsGraph | src/main/pt/up/fe/comp2025/optimization/RegisterAllocation.java:423-431 | removing a node from a simple graph leaves a simple graph on the other nodes; only its neighbours lose an edge, and removing an absent node changes nothing |
| Coloring.ReservedRegisters | src/main/pt/up/fe/comp2025/optimization/RegisterAllocation.java:504-510 | the reserved registers are exactly the slots of the PARAMETER entries and of `this` |
| Coloring.LeastFreeUnique | src/main/pt/up/fe/comp2025/optimization/RegisterAllocation.java:537-540 | the smallest free register from a start is unique |
| Coloring.FirstFree | src/main/pt/up/fe/comp2025/optimization/RegisterAllocation.java:537-540 | the `while (used.contains(c)) c++` loop stops at the smallest register at or above the start that is not used |
| Coloring.CoveredBound | src/main/pt/up/fe/comp2025/optimization/RegisterAllocation.java:537-540 | the loop can skip at most as many registers as are used |
| Coloring.LeastFreeBound | src/main/pt/up/fe/comp2025/optimization/RegisterAllocation.java:537-540 | the smallest free register lies less than one more than the number of used registers above the start |
| Coloring.NeighborColors | src/main/pt/up/fe/comp2025/optimization/RegisterAllocation.java:523-527 | the used colours are exactly the colours of the neighbours already coloured |
| Coloring.NeighborColorsCard | src/main/pt/up/fe/comp2025/optimization/RegisterAllocation.java:523-527 | there are at most as many used colours as coloured neighbours |
| Coloring.NeighborColorsAdd | src/main/pt/up/fe/comp2025/optimization/RegisterAllocation.java:523-527 | one more neighbour adds its colour when it has one and nothing otherwise |
| Coloring.InRangeStep | src/main/pt/up/fe/comp2025/optimization/RegisterAllocation.java:475-479 | colouring one more node inside the range keeps every colour in range |
| Coloring.InitiallyRestricted | src/main/pt/up/fe/comp2025/optimization/RegisterAllocation.java:453-457 | the working graph starts as the original graph restricted to all its nodes |
| Coloring.SimplifyStep | src/main/pt/up/fe/comp2025/optimization/RegisterAllocation.java:459-469 | removing a node of degree `< maxColors` keeps the working graph the original one restricted to the remaining nodes, and records that the node had fewer than `maxColors` neighbours left |
| Coloring.RestrictedStep | src/main/pt/up/fe/comp2025/optimization/RegisterAllocation.java:468 | removing a node keeps the working graph a restriction of the original |
| Coloring.RemovedLowOld | src/main/pt/up/fe/comp2025/optimization/RegisterAllocation.java:467-468 | a push keeps what is known about the nodes pushed before it |
| Coloring.RemovedLowNew | src/main/pt/up/fe/comp2025/optimization/RegisterAllocation.java:467-468 | the pushed node's remaining neighbours are exactly its neighbours in the working graph |
| Coloring.SelectStep | src/main/pt/up/fe/comp2025/optimization/RegisterAllocation.java:475-479 | giving a node a colour no coloured neighbour has keeps the colouring proper in the original adjacency |
| Coloring.CannotAllocate | src/main/pt/up/fe/comp2025/optimization/RegisterAllocation.java:462-465 | the failure message opens with `Cannot allocate with `, the first word after that is the register limit in decimal, and it ends with the needed count in decimal followed by ` registers.` |
| Coloring.CannotAllocateDetermines | src/main/pt/up/fe/comp2025/optimization/RegisterAllocation.java:462-465 | for Java `int` values, two failure messages are equal only when their limits and their needed counts are equal |
| Coloring.GraphColoring.constructor | src/main/pt/up/fe/comp2025/optimization/RegisterAllocation.java:441-446 | `maxColors == 0` stands for `Integer.MAX_VALUE` (unbounded); the stack starts empty |
| Coloring.GraphColoring.FindRemovableNode | src/main/pt/up/fe/comp2025/optimization/RegisterAllocation.java:484-491 | returns some node of degree `< maxColors` (which one is left open, as a `HashSet` decides it), or none when every remaining node has degree `>= maxColors` |
| Coloring.GraphColoring.CalculateMinimumRegisters | src/main/pt/up/fe/comp2025/optimization/RegisterAllocation.java:493-498 | `1 +` the largest degree in the remaining working graph, 1 for an empty graph |
| Coloring.GraphColoring.ReserveParameterRegisters | src/main/pt/up/fe/comp2025/optimization/RegisterAllocation.java:500-519 | the first register, counting from 0, that no parameter or `this` holds |
| Coloring.GraphColoring.AssignColor | src/main/pt/up/fe/comp2025/optimization/RegisterAllocation.java:521-543 | the smallest register at or above the start that no coloured neighbour in the original adjacency and no reserved slot holds |
| Coloring.GraphColoring.SnapshotAdjacency | src/main/pt/up/fe/comp2025/optimization/RegisterAllocation.java:453-457 | the copy of the adjacency taken before simplification equals the graph's adjacency |
| Coloring.GraphColoring.Color | src/main/pt/up/fe/comp2025/optimization/RegisterAllocation.java:448-482 | an empty graph gives an empty allocation; on success every node is coloured, adjacent nodes differ, no reserved slot is used and colours lie within `maxColors` plus the number of reserved slots of the first free slot; on failure the message names `1 +` the largest degree of the remaining working graph, in which every node has degree `>= maxColors`; with `maxColors` at least the number of nodes it never fails |
| Coloring.GraphColoring.Simplify | src/main/pt/up/fe/comp2025/optimization/RegisterAllocation.java:459-469 | either every node is pushed once, each with fewer than `maxColors` neighbours left when removed, or it stops at a non-empty graph whose nodes all have degree `>= maxColors` |
| Coloring.GraphColoring.Select | src/main/pt/up/fe/comp2025/optimization/RegisterAllocation.java:471-481 | popping the whole stack colours every pushed node properly in the original adjacency, avoiding reserved slots and staying within `maxColors` plus the number of reserved slots of the first free slot |
| Coloring.GraphColoring.Push | src/main/pt/up/fe/comp2025/optimization/RegisterAllocation.java:467-468 | pushing a low-degree node and removing it from the graph keeps the simplification invariant |
| Coloring.StackPush | src/main/pt/up/fe/comp2025/optimization/RegisterAllocation.java:467-468 | the stack and the remaining nodes still split the original nodes and the stack holds no node twice |
| Coloring.PopFresh | src/main/pt/up/fe/comp2025/optimization/RegisterAllocation.java:476-478 | each popped node is not coloured yet, and after colouring it the coloured nodes are exactly the popped ones |
| Coloring.ColorBound | src/main/pt/up/fe/comp2025/optimization/RegisterAllocation.java:521-543 | a node with fewer than `k` coloured neighbours gets a colour that is not reserved and lies below `start + k` plus the number of reserved slots |
| Coloring.SelectBound | src/main/pt/up/fe/comp2025/optimization/RegisterAllocation.java:475-479 | popping the next node keeps the colouring proper and in range |
| RegisterAllocation.UpdatedTable | src/main/pt/up/fe/comp2025/optimization/RegisterAllocation.java:116-132 | the new table has the same names; exactly the LOCAL, non-`this` entries named in the allocation get the allocated slot, and every other entry is unchanged |
| RegisterAllocation.UpdatedTableKeepsKinds | src/main/pt/up/fe/comp2025/optimization/RegisterAllocation.java:123-129 | write-back keeps every entry's scope and type, so the candidates stay the same, and a candidate gets its allocated slot |
| RegisterAllocation.ColorLimit | src/main/pt/up/fe/comp2025/optimization/RegisterAllocation.java:444 | a register limit of 0 means `Integer.MAX_VALUE` colours, any other limit is used as is |
| RegisterAllocation.NothingToAllocate | src/main/pt/up/fe/comp2025/optimization/RegisterAllocation.java:64-69 | a method without candidates keeps its table, and that table is a sound allocation |
| RegisterAllocation.ColoringIsSound | src/main/pt/up/fe/comp2025/optimization/RegisterAllocation.java:77-88 | writing back a proper colouring of the interference graph gives a table in which interfering candidates have different slots, no candidate takes a reserved slot, and parameters and `this` are untouched |
| RegisterAllocation.FailedFor | src/main/pt/up/fe/comp2025/optimization/RegisterAllocation.java:42-43 | the report opens with `Register allocation failed for method `, the method's name and `: `, and the rest of it is exactly the colouring's message |
| RegisterAllocation.FailedForDetermines | src/main/pt/up/fe/comp2025/optimization/RegisterAllocation.java:42-43 | for one method, two reports are equal only when they carry the same message |
| RegisterAllocation.UpdateVarTable | src/main/pt/up/fe/comp2025/optimization/RegisterAllocation.java:116-132 | the method's table becomes the updated table and nothing else changes |
| RegisterAllocation.AllocateRegistersForMethod | src/main/pt/up/fe/comp2025/optimization/RegisterAllocation.java:61-100 | corrected: on failure the table is unchanged and the message is the colouring's; on success the table is a sound allocation reached by write-back; with enough colours it never fails |
| RegisterAllocation.BuildInterference | src/main/pt/up/fe/comp2025/optimization/RegisterAllocation.java:77-81 | corrected: the graph built from the least liveness solution of the corrected sets, with the characterised edge set |
| RegisterAllocation.AllocateNonEmpty | src/main/pt/up/fe/comp2025/optimization/RegisterAllocation.java:77-88 | corrected: the same promises as `AllocateRegistersForMethod` for a method with candidates |
| RegisterAllocation.ColorInterference | src/main/pt/up/fe/comp2025/optimization/RegisterAllocation.java:77-86 | corrected: the colouring of that graph, when it succeeds, gives a sound allocation once written back |
| RegisterAllocation.HandledGrow | src/main/pt/up/fe/comp2025/optimization/RegisterAllocation.java:35-47 | reports appended later do not undo what a method's handling established |
| RegisterAllocation.AllocateAndReport | src/main/pt/up/fe/comp2025/optimization/RegisterAllocation.java:36-46 | corrected: adds at most one report, an OPTIMIZATION error at line and column -1; the method either gets a sound allocation or keeps its table and has a "Register allocation failed for method" report among the added ones |
| RegisterAllocation.RegisterAllocation.constructor | src/main/pt/up/fe/comp2025/optimization/RegisterAllocation.java:19-23 | the allocator optimises exactly when `maxRegisters >= 0` |
| RegisterAllocation.RegisterAllocation.AllocateRegisters | src/main/pt/up/fe/comp2025/optimization/RegisterAllocation.java:25-59 | corrected: with `maxRegisters < 0` the reports and every method are unchanged; otherwise the old reports come first, each added report is an OPTIMIZATION error at -1/-1, and every method is handled: a failing one keeps its table, the others get a sound allocation |
| JasminUtils.GetModifier | src/main/pt/up/fe/comp2025/backend/JasminUtils.java:27-31 | the access keyword followed by a space for public, private and protected, and the empty text exactly for package access |
| JasminUtils.ModifierNameLower | src/main/pt/up/fe/comp2025/backend/JasminUtils.java:29 | lower-casing the enum constant's name gives the keywords public, private and protected |
| JasminUtils.ConstInstructionForm | src/main/pt/up/fe/comp2025/backend/JasminUtils.java:34-45 | the instruction is one word exactly for -1 to 5, bipush exactly for the other bytes, sipush exactly for the other shorts and ldc for everything else |
| JasminUtils.GetConstInstruction | src/main/pt/up/fe/comp2025/backend/JasminUtils.java:34-45 | for every 32-bit value, the instruction chosen pushes exactly that value as the JVM reads it |
| JasminUtils.OperandFormPushes | src/main/pt/up/fe/comp2025/backend/JasminUtils.java:39-44 | bipush, sipush or ldc followed by a decimal in its range pushes that value |
| JasminUtils.AccessOfGeneral | src/main/pt/up/fe/comp2025/backend/JasminUtils.java:53 | the general form with a space and an index addresses that slot, and a negative index gives no valid access |
| JasminUtils.AccessOfCompact | src/main/pt/up/fe/comp2025/backend/JasminUtils.java:15-18 | the underscore forms address slots 0 to 3 |
| JasminUtils.LoadStoreTablesOffByOne | src/main/pt/up/fe/comp2025/backend/JasminUtils.java:48-62 | the helpers as written index the tables with the slot itself: slot 0 gives a bare iload without an index, slot 1 loads slot 0, and a store into slot 4 stores into slot 3 |
| JasminUtils.GetLoadInstructionAsWritten | src/main/pt/up/fe/comp2025/backend/JasminUtils.java:48-54 | as written: slot 0 and negative slots give no valid load, slots 1 to 4 load the slot below the one asked for, and slots 5 and up load the slot asked for, with the kind the prefix selects |
| JasminUtils.GetStoreInstructionAsWritten | src/main/pt/up/fe/comp2025/backend/JasminUtils.java:57-63 | as written: the same shift for stores |
| JasminUtils.LoadInstruction | src/main/pt/up/fe/comp2025/backend/JasminUtils.java:48-54 | the corrected load addresses exactly the requested slot, with the value kind the prefix selects; a negative slot gives no valid access |
| JasminUtils.StoreInstruction | src/main/pt/up/fe/comp2025/backend/JasminUtils.java:57-63 | the corrected store addresses exactly the requested slot, with the value kind the prefix selects; a negative slot gives no valid access |
| JasminUtils.LoadFormsAddress | src/main/pt/up/fe/comp2025/backend/JasminUtils.java:15-17 | the corrected load is the table entry after the general one for slots 0 to 3 and the general form with the index otherwise |
| JasminUtils.StoreFormsAddress | src/main/pt/up/fe/comp2025/backend/JasminUtils.java:16-18 | the corrected store is the table entry after the general one for slots 0 to 3 and the general form with the index otherwise |
| JasminUtils.StoreCompactAddress | src/main/pt/up/fe/comp2025/backend/JasminUtils.java:16-18 | the table entry after the general one for slot k stores into slot k |
| JasminUtils.AsWrittenAgreesBeyondTable | src/main/pt/up/fe/comp2025/backend/JasminUtils.java:48-62 | from slot 5 on, and for negative slots, the helpers as written and the corrected ones give the same text |
| JasminTypes.JasminType | src/main/pt/up/fe/comp2025/backend/JasminGenerator.java:165-172 | the type code starts with I, Z, V, L or a bracket; it is I or Z exactly for int and boolean and V exactly for void |
| JasminTypes.ParseFieldTypeOf | src/main/pt/up/fe/comp2025/backend/JasminGenerator.java:165-172 | the code of every field type is read back as that type, whatever text follows |
| JasminTypes.ParseClassCode | src/main/pt/up/fe/comp2025/backend/JasminGenerator.java:165-172 | a class code of the form L name ; is read back as that class |
| JasminTypes.ParseParametersOf | src/main/pt/up/fe/comp2025/backend/JasminGenerator.java:165-172 | the parameter codes followed by a closing parenthesis are read back as the parameter types |
| JasminTypes.MethodDescriptor | src/main/pt/up/fe/comp2025/backend/JasminGenerator.java:164-172 | a method descriptor is "(", the type codes of the parameters in order, ")" and the return type's code, and nothing else |
| JasminTypes.MethodDescriptorRoundTrip | src/main/pt/up/fe/comp2025/backend/JasminGenerator.java:165-172 | every method descriptor the emitter builds is read back as its parameter and return types |
| JasminTypes.JasminTypeInjective | src/main/pt/up/fe/comp2025/backend/JasminGenerator.java:165-172 | two field types with the same code are the same type |
| Jvm.SplitLine | src/main/pt/up/fe/comp2025/backend/JasminGenerator.java:551-566 | a line made of a mnemonic, a space and operands splits back into the two |
| Jvm.NotAJump | src/main/pt/up/fe/comp2025/backend/JasminGenerator.java:115-122 | a line whose mnemonic does not start with if is not a conditional jump |
| Jvm.DepthAfterStep | src/main/pt/up/fe/comp2025/backend/JasminGenerator.java:314-400 | a line that does not jump adds its stack effect to the depth at the next jump |
| Jvm.DepthAtJump | src/main/pt/up/fe/comp2025/backend/JasminGenerator.java:314-400 | at a conditional jump the depth is the jump's own effect |
| Jvm.DepthAfterOperands | src/main/pt/up/fe/comp2025/backend/JasminGenerator.java:604-635 | the depth at the jump after one to four pushing lines is that many values plus the jump's effect |
| JasminCode.GenerateLiteral | src/main/pt/up/fe/comp2025/backend/JasminGenerator.java:518-539 | a literal that parses as a Java int is one line, the constant helper's instruction, that pushes exactly that value; any other literal is loaded with ldc |
| JasminCode.LiteralAgreesWithConstInstruction | src/main/pt/up/fe/comp2025/backend/JasminGenerator.java:518-539 | for every 32-bit value the literal code equals the constant helper's instruction |
| JasminCode.LoadForm | src/main/pt/up/fe/comp2025/backend/JasminGenerator.java:551-566 | the load chosen by the switch is the corrected helper's load, so it addresses exactly the requested slot with the int or reference kind, on one line |
| JasminCode.ElementCode | src/main/pt/up/fe/comp2025/backend/JasminGenerator.java:518-590 | a literal always has code; an operand has code exactly when the variable table has it; the only exceptions are a null pointer and an index out of bounds |
| JasminCode.StoreForm | src/main/pt/up/fe/comp2025/backend/JasminGenerator.java:491-506 | the store chosen by the switch is the corrected helper's store, so it addresses exactly the destination's slot with the int or reference kind, on one line |
| JasminCode.OperandLoadsItsSlot | src/main/pt/up/fe/comp2025/backend/JasminGenerator.java:541-568 | an operand in the variable table is loaded by one line that addresses its slot |
| JasminCode.GenerateBinaryOpAsWritten | src/main/pt/up/fe/comp2025/backend/JasminGenerator.java:592-647 | as written: code exactly when both operands have code and the operator is add, sub, mul, div, and or lth; otherwise one of the exceptions the emitter throws |
| JasminCode.GenerateBinaryOp | src/main/pt/up/fe/comp2025/backend/JasminGenerator.java:592-647 | corrected: the same operators and operands have code, and with both operands generated any other operator is NotImplementedException |
| JasminCode.GenerateUnaryOp | src/main/pt/up/fe/comp2025/backend/JasminGenerator.java:873-897 | code exactly when the operand has code and the operator is a boolean negation; otherwise one of the exceptions the emitter throws |
| JasminCode.ArithMnemonicMeansOperator | src/main/pt/up/fe/comp2025/backend/JasminGenerator.java:598-603 | exactly `+ - * / &&` have an arithmetic mnemonic, and the JVM instruction chosen for each computes what the operator means: the sum, difference and product wrapped to 32 bits, the quotient rounded toward zero (a zero divisor throws), and the conjunction of two booleans |
| JasminCode.CondMnemonicMeansOperator | src/main/pt/up/fe/comp2025/backend/JasminGenerator.java:105-113 | the comparison jump chosen for each operator jumps exactly when the operator's comparison holds; an unlisted operator falls back to if_icmplt |
| JasminCode.ArithMnemonic | src/main/pt/up/fe/comp2025/backend/JasminGenerator.java:598-603 | an arithmetic mnemonic exists exactly for `+ - * / &&` |
| JasminCode.ArithMnemonicEffect | src/main/pt/up/fe/comp2025/backend/JasminGenerator.java:598-603 | each arithmetic mnemonic takes two values from the stack, leaves one and does not jump |
| JasminCode.CondMnemonic | src/main/pt/up/fe/comp2025/backend/JasminGenerator.java:105-113 | the mnemonic chosen for any operator is a two-operand compare-and-jump, and an unlisted operator gets if_icmplt |
| JasminCode.ElementsCode | src/main/pt/up/fe/comp2025/backend/JasminGenerator.java:126-128 | the code of a list of operands, one after the other, exists exactly when each operand has code |
| JasminCode.GenerateCondBranch | src/main/pt/up/fe/comp2025/backend/JasminGenerator.java:86-137 | a binary condition has code exactly when both operands have, a single-operand condition exactly when its operand has, and any other condition exactly when each of its operands has; the only failures are the emitter's exceptions |
| JasminCode.GenerateReturn | src/main/pt/up/fe/comp2025/backend/JasminGenerator.java:649-668 | no value gives a bare return; a value has code exactly when its element has, and then it is loaded and returned with the return instruction of its type (ireturn for int and boolean, areturn otherwise) |
| JasminCode.ArgTypes | src/main/pt/up/fe/comp2025/backend/JasminGenerator.java:165-172 | the argument types in the order of the arguments |
| JasminCode.InvokeDescriptor | src/main/pt/up/fe/comp2025/backend/JasminGenerator.java:143-181 | the descriptor of an invocation is read back as its argument and return types |
| JasminCode.GenerateInvoke | src/main/pt/up/fe/comp2025/backend/JasminGenerator.java:670-754 | a static call has code exactly when every argument has; a virtual or special call without a receiver throws NullPointerException, and with one it has code exactly when the receiver and every argument have |
| JasminCode.NewNamesClass | src/main/pt/up/fe/comp2025/backend/JasminGenerator.java:756-782 | creating an object without arguments writes new with the class name followed by dup |
| JasminCode.GenerateNew | src/main/pt/up/fe/comp2025/backend/JasminGenerator.java:756-786 | creating an object always has code, and creating an array has code exactly when its size operand has (or no size is given) |
| JasminCode.GenerateArrayLength | src/main/pt/up/fe/comp2025/backend/JasminGenerator.java:861-871 | code exactly when there is an array operand and it has code |
| JasminCode.GenerateGetField | src/main/pt/up/fe/comp2025/backend/JasminGenerator.java:803-826 | code exactly when the object operand has code |
| JasminCode.GeneratePutField | src/main/pt/up/fe/comp2025/backend/JasminGenerator.java:828-859 | code exactly when the object operand and the value have code |
| JasminCode.IncrementFusion | src/main/pt/up/fe/comp2025/backend/JasminGenerator.java:431-446 | an assignment x = x + 1 or x = x - 1 becomes exactly one iinc line adding 1 or -1 to x's slot |
| JasminCode.IncrementLineMeans | src/main/pt/up/fe/comp2025/backend/JasminGenerator.java:444 | the iinc line written reads back as that slot and that amount |
| JasminCode.AssignStoresIntoSlot | src/main/pt/up/fe/comp2025/backend/JasminGenerator.java:471-510 | any other assignment to a local is the code of the right-hand side followed by one store into the destination's slot |
| JasminCode.GenerateAssign | src/main/pt/up/fe/comp2025/backend/JasminGenerator.java:428-512 | corrected: assigning to a literal or to a name the variable table lacks fails, an array element whose array is missing with NullPointerException; an assignment that is not fused into iinc succeeds only when its right-hand side has code |
| JasminCode.GenerateInstruction | src/main/pt/up/fe/comp2025/backend/JasminGenerator.java:51-84 | corrected: the dispatch on the instruction type never fails except with one of the emitter's exceptions, and a goto always has code |
| JasminCode.ElementAssignOrder | src/main/pt/up/fe/comp2025/backend/JasminGenerator.java:449-469 | corrected: an assignment to an array element loads the array from its slot, then the index, then the value, and ends with iastore for int and boolean elements and aastore otherwise |
| JasminCode.SimpleElementCode | src/main/pt/up/fe/comp2025/backend/JasminGenerator.java:518-568 | a literal or a local operand is one line of code |
| JasminCode.SimpleLinePushes | src/main/pt/up/fe/comp2025/backend/JasminGenerator.java:518-568 | that line pushes one value and does not jump |
| JasminCode.ConstLineIsPush | src/main/pt/up/fe/comp2025/backend/JasminGenerator.java:518-539 | the constant instruction pushes one value and is not a jump |
| JasminCode.LessCode | src/main/pt/up/fe/comp2025/backend/JasminGenerator.java:604-635 | the text of a less-than comparison, as written and corrected, in terms of the operands' code and the jump idiom |
| JasminCode.LessLines | src/main/pt/up/fe/comp2025/backend/JasminGenerator.java:604-635 | the lines of a less-than comparison on simple operands, ending with a jump that pops one value against zero and two otherwise |
| JasminCode.LessBalanced | src/main/pt/up/fe/comp2025/backend/JasminGenerator.java:604-635 | corrected, a less-than comparison on simple operands reaches its jump with the stack at its starting depth |
| JasminFindings.LessLeavesOperandsAsWritten | src/main/pt/up/fe/comp2025/backend/JasminGenerator.java:595-635 | as written, a less-than comparison on simple operands reaches its jump with two values left on the stack |
| JasminFindings.LessOnLocals | src/main/pt/up/fe/comp2025/backend/JasminGenerator.java:595-635 | on x < y and on x < 0 with x and y locals, the jump is reached two values too deep as written and at the starting depth corrected |
| JasminFindings.ElementIncrementAsWritten | src/main/pt/up/fe/comp2025/backend/JasminGenerator.java:431-446 | as written, a[i] = a[j] + 1 becomes iinc on the slot that holds the array |
| JasminFindings.ElementIncrementCorrected | src/main/pt/up/fe/comp2025/backend/JasminGenerator.java:449-469 | corrected, the same assignment loads the array from its slot and ends with iastore |
| JasminLimits.StepsShape | src/main/pt/up/fe/comp2025/backend/JasminGenerator.java:320-391 | by the step table: a goto and a return without a value have no steps and every other instruction has some; the first step never lowers the stack; a call first pushes its receiver and arguments, and so does an assignment from a call; a call leaves one value, a field read leaves one, an assignment from a static call takes one value and any other assignment leaves the stack as it was, and every other instruction has net effect 0 |
| JasminLimits.PeakRise | src/main/pt/up/fe/comp2025/backend/JasminGenerator.java:314-400 | the highest rise of the depth within one instruction is at least zero and at least its net effect |
| JasminLimits.PeakRiseIsLargestPrefix | src/main/pt/up/fe/comp2025/backend/JasminGenerator.java:314-400 | that rise is the largest sum of a prefix of the instruction's steps |
| JasminLimits.RunCoversPeaks | src/main/pt/up/fe/comp2025/backend/JasminGenerator.java:314-400 | the corrected running maximum is at least the peak of every instruction's step count |
| JasminLimits.RunDominatesAsWritten | src/main/pt/up/fe/comp2025/backend/JasminGenerator.java:314-400 | the corrected running maximum is at least the one as written |
| JasminLimits.StackLimitAsWritten | src/main/pt/up/fe/comp2025/backend/JasminGenerator.java:314-400 | as written: the limit is at least 4, and for a single instruction it is its net effect however high the stack rises inside it |
| JasminLimits.StackLimit | src/main/pt/up/fe/comp2025/backend/JasminGenerator.java:314-400 | corrected: the limit is at least 4, at least the limit as written and at least the peak of every instruction's step count, by the source's own step table |
| JasminLimits.CalculateStackLimit | src/main/pt/up/fe/comp2025/backend/JasminGenerator.java:314-400 | corrected: the loop over the instructions computes the stack limit |
| JasminLimits.CallPeakMissedAsWritten | src/main/pt/up/fe/comp2025/backend/JasminGenerator.java:314-400 | for a method made only of a call on an object with four arguments, the limit as written is 4 while five values are on the stack |
| JasminLimits.Instructions | src/main/pt/up/fe/comp2025/backend/JasminGenerator.java:314-400 | the instructions of the control-flow nodes, in order |
| JasminLimits.LocalsLimit | src/main/pt/up/fe/comp2025/backend/JasminGenerator.java:417-426 | the locals limit is above every register in the variable table, is one more than the largest one, and is 1 for an empty table |
| JasminGenerator.SuperName | src/main/pt/up/fe/comp2025/backend/JasminGenerator.java:208-213 | the superclass named, or java/lang/Object when there is none or it is empty |
| JasminGenerator.IndentedLines | src/main/pt/up/fe/comp2025/backend/JasminGenerator.java:286-288 | indenting the code of an instruction puts the tab before each of its lines |
| JasminGenerator.LabelLines | src/main/pt/up/fe/comp2025/backend/JasminGenerator.java:282-284 | the labels of a node are written one per line, each followed by a colon |
| JasminGenerator.BodyEndsInNewline | src/main/pt/up/fe/comp2025/backend/JasminGenerator.java:280-289 | the body of a method ends with a newline |
| JasminGenerator.LimitLineReads | src/main/pt/up/fe/comp2025/backend/JasminGenerator.java:300-301 | a limit directive reads back as the number written in it |
| JasminGenerator.MethodCode | src/main/pt/up/fe/comp2025/backend/JasminGenerator.java:256-312 | corrected: a method fails exactly when its body fails, with that error; otherwise its text reads as its header, the corrected stack limit, the locals limit, the body and .end method |
| JasminGenerator.MethodTextReads | src/main/pt/up/fe/comp2025/backend/JasminGenerator.java:296-307 | text built from a header, two limits and a body reads back as those parts |
| JasminGenerator.FieldsTextLines | src/main/pt/up/fe/comp2025/backend/JasminGenerator.java:217-223 | the fields are written one .field line each, in order |
| JasminGenerator.ConstructorsSkipped | src/main/pt/up/fe/comp2025/backend/JasminGenerator.java:245-247 | constructors produce no method text |
| JasminGenerator.BodyErrorSticks | src/main/pt/up/fe/comp2025/backend/JasminGenerator.java:280-289 | once an instruction of a method cannot be generated, the method fails with that error |
| JasminGenerator.MethodsErrorSticks | src/main/pt/up/fe/comp2025/backend/JasminGenerator.java:240-250 | once a method cannot be generated, the class fails with that error |
| JasminGenerator.BodyStep | src/main/pt/up/fe/comp2025/backend/JasminGenerator.java:280-289 | each node adds its labels and its indented code to the body, or ends it with its error |
| JasminGenerator.MethodsCodeStep | src/main/pt/up/fe/comp2025/backend/JasminGenerator.java:240-250 | each method other than a constructor adds its text to the class, or ends it with its error; a constructor adds nothing |
| JasminGenerator.ClassCode | src/main/pt/up/fe/comp2025/backend/JasminGenerator.java:199-253 | corrected: a class fails exactly when the text of one of its methods fails, with that error; otherwise its text opens with the .class line and the .super line of the superclass named |
| JasminGenerator.JasminGenerator.constructor | src/main/pt/up/fe/comp2025/backend/JasminGenerator.java:42-48 | the generator starts with its class unit, no code and no current method |
| JasminGenerator.JasminGenerator.Build | src/main/pt/up/fe/comp2025/backend/JasminGenerator.java:188-196 | the first call generates the class and keeps its text; later calls return the kept text |
| JasminGenerator.JasminGenerator.GenerateClassUnit | src/main/pt/up/fe/comp2025/backend/JasminGenerator.java:199-253 | corrected: the class text is the class code of the unit |
| JasminGenerator.JasminGenerator.GenerateMethods | src/main/pt/up/fe/comp2025/backend/JasminGenerator.java:240-250 | corrected: the loop over the methods computes the methods' text |
| JasminGenerator.JasminGenerator.AppendMethod | src/main/pt/up/fe/comp2025/backend/JasminGenerator.java:240-250 | corrected: one step of that loop |
| JasminGenerator.JasminGenerator.GenerateMethod | src/main/pt/up/fe/comp2025/backend/JasminGenerator.java:256-312 | corrected: the method's text; the current method is cleared afterwards and stays set when generation throws |
| JasminGenerator.JasminGenerator.LabelsFrom | src/main/pt/up/fe/comp2025/backend/JasminGenerator.java:282-284 | the loop over a node's labels writes one label line each, in order |
| OptUtils.NumberedInjective | src/main/pt/up/fe/comp2025/optimization/OptUtils.java:35-41 | two temporaries of one prefix with different numbers have different names |
| OptUtils.TempName | src/main/pt/up/fe/comp2025/optimization/OptUtils.java:35-41 | a temporary name starts with its prefix and is longer than it, and for a number of 0 or more the rest is the number in decimal, which reads back as that number |
| OptUtils.TempIsNew | src/main/pt/up/fe/comp2025/optimization/OptUtils.java:35-41 | the next temporary of a prefix is none of those handed out for it before, and it is added to them |
| OptUtils.LabelName | src/main/pt/up/fe/comp2025/optimization/OptUtils.java:70-73 | a label starts with `label_` and is longer than it, and for a counter of 0 or more its rest is the counter in decimal, which reads back as the counter |
| OptUtils.LabelIsNew | src/main/pt/up/fe/comp2025/optimization/OptUtils.java:70-73 | the next label is none of those handed out before, and it is added to them |
| OptUtils.PrefixesCanCollide | src/main/pt/up/fe/comp2025/optimization/OptUtils.java:35-41 | temporaries of different prefixes are numbered independently, so the tenth of prefix a and the first of prefix a1 have the same name |
| OptUtils.OptUtils.constructor | src/main/pt/up/fe/comp2025/optimization/OptUtils.java:23-27 | the helper starts with no temporaries counted and the label counter at 0 |
| OptUtils.OptUtils.NextTemp | src/main/pt/up/fe/comp2025/optimization/OptUtils.java:35-41 | the prefix is counted once more, as a Java int, and the name is the prefix followed by its count before the call; the label counter is unchanged |
| OptUtils.OptUtils.NextDefaultTemp | src/main/pt/up/fe/comp2025/optimization/OptUtils.java:30-33 | the same for the prefix tmp |
| OptUtils.OptUtils.NextLabel | src/main/pt/up/fe/comp2025/optimization/OptUtils.java:70-73 | the counter is incremented as a Java int and the label is label_ followed by the new count; the temporaries are unchanged |
| OptUtils.OptUtils.NextFreshTemp | src/main/pt/up/fe/comp2025/optimization/OptUtils.java:35-41 | below the int limit the temporary is new among those of its prefix, the count of that prefix grows by one and no other prefix's count changes |
| OptUtils.OptUtils.NextFreshLabel | src/main/pt/up/fe/comp2025/optimization/OptUtils.java:70-73 | below the int limit the label is new and the counter grows by one |
| OptUtils.FirstTemps | src/main/pt/up/fe/comp2025/optimization/OptUtils.java:35-41 | a fresh helper hands out the prefix followed by 0, 1, 2 and so on for repeated requests, all different |
| OptUtils.OllirTypeOfName | src/main/pt/up/fe/comp2025/optimization/OptUtils.java:55-68 | a type name has a suffix exactly when it is int, boolean, String, void, double or float; the suffix starts with a dot; any other name throws NotImplementedException |
| OptUtils.ToOllirType | src/main/pt/up/fe/comp2025/optimization/OptUtils.java:51-53 | a type has a suffix exactly when its name is in that list |
| OptUtils.OllirTypeTable | src/main/pt/up/fe/comp2025/optimization/OptUtils.java:57-65 | the suffixes are .i32, .bool, .String, .V, .f64 and .f32, and each suffix tells back its type name |
| OptUtils.ArrayFlagIgnored | src/main/pt/up/fe/comp2025/optimization/OptUtils.java:51-53 | an array type gets the suffix of its element name: the array flag is not looked at |
| Int32.Wrap | src/main/pt/up/fe/comp2025/optimization/visitors/ConstantFoldingVisitor.java:33-35 | narrowing to 32 bits gives a Java int congruent to the value modulo 2^32, and leaves an int unchanged |
| Int32.TruncDiv | src/main/pt/up/fe/comp2025/optimization/visitors/ConstantFoldingVisitor.java:38 | Java division rounds toward zero: it agrees with Dafny's on non-negative operands and is not positive when the signs differ |
| Int32.TruncDivRoundsTowardZero | src/main/pt/up/fe/comp2025/optimization/visitors/ConstantFoldingVisitor.java:38 | the quotient times the divisor plus the remainder is the dividend, the remainder has the dividend's sign and is smaller than the divisor in magnitude |
| Int32.JavaDiv | src/main/pt/up/fe/comp2025/optimization/visitors/ConstantFoldingVisitor.java:38 | Java division of two ints is an int |
| Int32.JavaDivOverflow | src/main/pt/up/fe/comp2025/optimization/visitors/ConstantFoldingVisitor.java:38 | the smallest int divided by -1 wraps to the smallest int |
| Int32.TruncDivIsNotEuclidean | src/main/pt/up/fe/comp2025/optimization/visitors/ConstantFoldingVisitor.java:38 | -7 / 2 is -3 in Java and -4 in Dafny |
| Strings.ParseIntOfIntToString | src/main/pt/up/fe/comp2025/optimization/visitors/ConstantFoldingVisitor.java:27-28 | Integer.parseInt reads back the decimal text of every Java int |
| Strings.IntToStringInjective | src/main/pt/up/fe/comp2025/optimization/visitors/ConstantFoldingVisitor.java:45 | different values have different decimal texts |
| ConstantFolding.LiteralValue | src/main/pt/up/fe/comp2025/optimization/visitors/ConstantFoldingVisitor.java:27-28 | a literal's value is read exactly when it has a value attribute that parses as a Java int |
| ConstantFolding.Evaluate | src/main/pt/up/fe/comp2025/optimization/visitors/ConstantFoldingVisitor.java:32-41 | the operators +, -, * and / with a non-zero divisor give an int value; every other case declines |
| ConstantFolding.FoldBinary | src/main/pt/up/fe/comp2025/optimization/visitors/ConstantFoldingVisitor.java:17-51 | a node whose first two children are not both integer literals is left as it is; the visit throws only when a child is missing or a literal's value or the operator cannot be read; a folded node is an integer literal without children |
| ConstantFolding.FoldCases | src/main/pt/up/fe/comp2025/optimization/visitors/ConstantFoldingVisitor.java:32-46 | on two parsed literals, division by zero and an unknown operator decline and leave the node, and the other cases fold to the evaluated value |
| ConstantFolding.FoldedValue | src/main/pt/up/fe/comp2025/optimization/visitors/ConstantFoldingVisitor.java:33-45 | a folded literal holds the Java int result: the sum, difference or product modulo 2^32, or the quotient rounded toward zero |
| ConstantFolding.FoldNegativeDivision | src/main/pt/up/fe/comp2025/optimization/visitors/ConstantFoldingVisitor.java:36-39 | -7 / 2 folds to -3 |
| ConstantFolding.FoldOverflow | src/main/pt/up/fe/comp2025/optimization/visitors/ConstantFoldingVisitor.java:33 | 2147483647 + 1 folds to -2147483648 |
| ConstantPropagation.AssignedHere | src/main/pt/up/fe/comp2025/optimization/ConstantPropagationVisitor.java:173-180 | an assignment whose first child is a variable reference assigns exactly that variable; any other node assigns nothing |
| ConstantPropagation.LoopAssignedMeans | src/main/pt/up/fe/comp2025/optimization/ConstantPropagationVisitor.java:158-185 | the loop-modified variables are exactly the variables assigned by some assignment anywhere in the body of some while loop of the tree, at any depth |
| ConstantPropagation.ConstantNode | src/main/pt/up/fe/comp2025/optimization/ConstantPropagationVisitor.java:216-238 | the node created for a constant is an integer or boolean literal without children |
| ConstantPropagation.ConstantOf | src/main/pt/up/fe/comp2025/optimization/ConstantPropagationVisitor.java:197-211 | there is a constant for an integer literal, true, false, or a variable reference whose name is in the map, and for nothing else; a literal gives its own value, and a variable gives its binding |
| ConstantPropagation.ConstantNodeRoundTrip | src/main/pt/up/fe/comp2025/optimization/ConstantPropagationVisitor.java:197-238 | the node created for a constant integer or boolean denotes that constant again |
| ConstantPropagation.AssignEffect | src/main/pt/up/fe/comp2025/optimization/ConstantPropagationVisitor.java:97-117 | after x = rhs, x is bound exactly when it is not loop-modified, the visit is outside every loop and rhs denotes a constant, and then to that constant; every other binding is unchanged |
| ConstantPropagation.Walk | src/main/pt/up/fe/comp2025/optimization/ConstantPropagationVisitor.java:14-192 | the rewritten tree is well formed and no larger than the original, under the traversal as written (the handler of the node's kind, then every child of what it left visited again with the state it left) and under the corrected one (the handler alone) |
| ConstantPropagation.Handle | src/main/pt/up/fe/comp2025/optimization/ConstantPropagationVisitor.java:32-36 | the result of the handler registered for the node's kind (the corrected walk adds handlers for if statements) is well formed and no larger than the node |
| ConstantPropagation.WalkMethodDecl | src/main/pt/up/fe/comp2025/optimization/ConstantPropagationVisitor.java:43-60 | a method declaration keeps its kind, attributes and number of children |
| ConstantPropagation.WalkWhileStmt | src/main/pt/up/fe/comp2025/optimization/ConstantPropagationVisitor.java:62-78 | a loop keeps its kind and number of children, only its condition and body are visited, and the loop flag is what it was before |
| ConstantPropagation.WalkAssignStmt | src/main/pt/up/fe/comp2025/optimization/ConstantPropagationVisitor.java:80-120 | an assignment keeps its kind and number of children, and its target is never rewritten |
| ConstantPropagation.WalkVarRefExpr | src/main/pt/up/fe/comp2025/optimization/ConstantPropagationVisitor.java:122-153 | a read changes nothing but changed, and it is replaced only when it is not a target, the visit is outside every loop, the variable is not loop-modified and has a constant; then it becomes the literal of that constant and changed is set |
| ConstantPropagation.WalkDefault | src/main/pt/up/fe/comp2025/optimization/ConstantPropagationVisitor.java:187-192 | the default visit keeps the node's kind, attributes and number of children |
| ConstantPropagation.WalkChildren | src/main/pt/up/fe/comp2025/optimization/ConstantPropagationVisitor.java:187-192 | visiting the first k children gives one rewritten child for each of them |
| ConstantPropagation.Meet | src/main/pt/up/fe/comp2025/optimization/ConstantPropagationVisitor.java:187-192 | corrected if statements: a variable survives the meeting of two maps exactly when both bind it to the same constant |
| ConstantPropagation.WalkWithElse | src/main/pt/up/fe/comp2025/optimization/ConstantPropagationVisitor.java:187-192 | corrected: an if with an else keeps its kind, attributes and three children (the maps of the two branches are met with `Meet`, as `IfMergeCorrected` shows) |
| ConstantPropagation.WalkNoElse | src/main/pt/up/fe/comp2025/optimization/ConstantPropagationVisitor.java:187-192 | corrected: an if without an else keeps its kind, attributes and two children (the maps before and after the branch are met with `Meet`) |
| ConstantPropagation.WalkKeeps | src/main/pt/up/fe/comp2025/optimization/ConstantPropagationVisitor.java:14-192 | a visit of a tree without method declarations, under either traversal, keeps the loop-modified set, the loop flag and the current method, rewrites only reads of variables that are not loop-modified and are not assignment targets, each into a literal, and sets changed exactly when something was rewritten |
| ConstantPropagation.HandleKeeps | src/main/pt/up/fe/comp2025/optimization/ConstantPropagationVisitor.java:32-153 | the same for the handler alone |
| ConstantPropagation.DefaultKeeps | src/main/pt/up/fe/comp2025/optimization/ConstantPropagationVisitor.java:187-192 | the same for the default visit |
| ConstantPropagation.ChildrenKeep | src/main/pt/up/fe/comp2025/optimization/ConstantPropagationVisitor.java:187-192 | the same for the first k children visited in order |
| ConstantPropagation.RevisitKeeps | src/main/pt/up/fe/comp2025/optimization/ConstantPropagationVisitor.java:14 | the same for the second visit of the children after the handler |
| ConstantPropagation.InsideLoopUnchanged | src/main/pt/up/fe/comp2025/optimization/ConstantPropagationVisitor.java:132-142 | inside a loop nothing is rewritten and changed stays as it was, under either traversal |
| ConstantPropagation.WhileHandlerUnchanged | src/main/pt/up/fe/comp2025/optimization/ConstantPropagationVisitor.java:62-78 | the loop handler gives the loop back as it went in, restores the loop flag and leaves changed as it was |
| ConstantPropagation.WhileUnchanged | src/main/pt/up/fe/comp2025/optimization/ConstantPropagationVisitor.java:62-78 | corrected: a while statement comes out of the walk as it went in, with the loop flag restored and changed as it was |
| ConstantPropagation.MethodResets | src/main/pt/up/fe/comp2025/optimization/ConstantPropagationVisitor.java:43-60 | a method is walked with an empty map, outside every loop and with its loop-modified variables collected; args names main; only reads of variables that are not loop-modified are rewritten, and changed is set exactly when something was |
| ConstantPropagation.MethodHandlerResets | src/main/pt/up/fe/comp2025/optimization/ConstantPropagationVisitor.java:43-60 | the same for the method handler alone |
| ConstantPropagation.WalkAvoidsLoopVars | src/main/pt/up/fe/comp2025/optimization/ConstantPropagationVisitor.java:97-117 | the map never holds a loop-modified variable, under either traversal |
| ConstantPropagation.ExpressionKeepsMap | src/main/pt/up/fe/comp2025/optimization/ConstantPropagationVisitor.java:122-153 | visiting an expression leaves the map as it was |
| ConstantPropagation.AssignRule | src/main/pt/up/fe/comp2025/optimization/ConstantPropagationVisitor.java:80-120 | after x = rhs the map holds the constant rhs denotes for x when x is not loop-modified, the visit is outside every loop and rhs is a constant, and x is removed otherwise; the target is never rewritten and other entries are untouched |
| ConstantPropagation.AssignHandler | src/main/pt/up/fe/comp2025/optimization/ConstantPropagationVisitor.java:80-120 | the same for the assignment handler alone |
| ConstantPropagation.StraightLineExample | src/main/pt/up/fe/comp2025/optimization/ConstantPropagationVisitor.java:80-153 | x = 1; y = x; outside a loop becomes x = 1; y = 1;, binds both variables to 1 and sets changed |
| ConstantPropagation.BackLeakAsWritten | src/main/pt/up/fe/comp2025/optimization/ConstantPropagationVisitor.java:43-60 | as written, io(x); x = 5; from an empty map rewrites the read that precedes the assignment into 5 |
| ConstantPropagation.BackLeakCorrected | src/main/pt/up/fe/comp2025/optimization/ConstantPropagationVisitor.java:43-60 | corrected, the same block keeps the read and binds x to 5 |
| ConstantPropagation.LoopReadAsWritten | src/main/pt/up/fe/comp2025/optimization/ConstantPropagationVisitor.java:62-78 | as written, the body of while (c) { y = x; } with x bound to 1 becomes y = 1; because the children are visited again after the loop flag was restored |
| ConstantPropagation.IfNoMergeAsWritten | src/main/pt/up/fe/comp2025/optimization/ConstantPropagationVisitor.java:187-192 | as written, if (c) x = 1; else x = 2; leaves x bound to 2 |
| ConstantPropagation.IfMergeCorrected | src/main/pt/up/fe/comp2025/optimization/ConstantPropagationVisitor.java:187-192 | corrected, the same statement is left as it is and x is bound to nothing afterwards |
| ConstantPropagation.ConstantPropagationVisitor.constructor | src/main/pt/up/fe/comp2025/optimization/ConstantPropagationVisitor.java:26-37 | the visitor starts unchanged, with no current method, an empty map, no loop-modified variables and outside every loop |
| ConstantPropagation.ConstantPropagationVisitor.DidChange | src/main/pt/up/fe/comp2025/optimization/ConstantPropagationVisitor.java:39-41 | whether some read was rewritten |
| ConstantPropagation.ConstantPropagationVisitor.Visit | src/main/pt/up/fe/comp2025/optimization/ConstantPropagationVisitor.java:14 | the visit of the preorder base gives the rewritten tree and the new state of the as-written walk |
| ConstantPropagation.ConstantPropagationVisitor.Dispatch | src/main/pt/up/fe/comp2025/optimization/ConstantPropagationVisitor.java:32-36 | the registered handler gives the tree and state of the as-written handler |
| ConstantPropagation.ConstantPropagationVisitor.VisitChildren | src/main/pt/up/fe/comp2025/optimization/ConstantPropagationVisitor.java:55-57 | the loop over the children gives the tree and state of visiting every child in order |
| ConstantPropagation.ConstantPropagationVisitor.VisitMethodDecl | src/main/pt/up/fe/comp2025/optimization/ConstantPropagationVisitor.java:43-60 | the rewritten method and new state are those of the method handler |
| ConstantPropagation.ConstantPropagationVisitor.VisitWhileStmt | src/main/pt/up/fe/comp2025/optimization/ConstantPropagationVisitor.java:62-78 | the rewritten loop and new state are those of the loop handler |
| ConstantPropagation.ConstantPropagationVisitor.VisitAssignStmt | src/main/pt/up/fe/comp2025/optimization/ConstantPropagationVisitor.java:80-120 | the rewritten assignment and new state are those of the assignment handler |
| ConstantPropagation.ConstantPropagationVisitor.VisitVarRefExpr | src/main/pt/up/fe/comp2025/optimization/ConstantPropagationVisitor.java:122-153 | the rewritten reference and new state are those of the read handler |
| ConstantPropagation.ConstantPropagationVisitor.DefaultVisit | src/main/pt/up/fe/comp2025/optimization/ConstantPropagationVisitor.java:187-192 | the rewritten node and new state are those of the default visit |
| ConstantPropagation.ConstantPropagationVisitor.IdentifyLoopModifiedVariables | src/main/pt/up/fe/comp2025/optimization/ConstantPropagationVisitor.java:158-167 | adds exactly the variables assigned inside the body of some loop of the tree |
| ConstantPropagation.ConstantPropagationVisitor.FindModifiedVariables | src/main/pt/up/fe/comp2025/optimization/ConstantPropagationVisitor.java:172-185 | adds exactly the variables assigned anywhere in the tree |
| UndeclaredVariable.SimpleName | src/main/pt/up/fe/comp2025/analysis/passes/UndeclaredVariable.java:68-71 | the simple name of an import is the part after its last dot, contains no dot, and is the whole import when it has no dot |
| UndeclaredVariable.ResolvesIffVisible | src/main/pt/up/fe/comp2025/analysis/passes/UndeclaredVariable.java:45-74 | a reference resolves exactly when its name is a parameter or a local of the current method, a field, or the simple name of an import |
| UndeclaredVariable.RefReport | src/main/pt/up/fe/comp2025/analysis/passes/UndeclaredVariable.java:39-95 | the check throws exactly when there is no current method or the reference has no name; otherwise it reports nothing exactly when the name resolves, and else one semantic error at the reference's position, saying the method is not in the table when the table has no parameter list for it and that the variable does not exist otherwise |
| UndeclaredVariable.MessagesDiffer | src/main/pt/up/fe/comp2025/analysis/passes/UndeclaredVariable.java:77-87 | the two messages cannot be confused |
| UndeclaredVariable.MethodContext | src/main/pt/up/fe/comp2025/analysis/passes/UndeclaredVariable.java:34 | a method declaration named args stands for main; any other name stands for itself |
| UndeclaredVariable.UndeclaredVariableVisitor.constructor | src/main/pt/up/fe/comp2025/analysis/passes/UndeclaredVariable.java:19-21 | the visitor starts without a current method and without reports |
| UndeclaredVariable.UndeclaredVariableVisitor.VisitMethodDecl | src/main/pt/up/fe/comp2025/analysis/passes/UndeclaredVariable.java:31-37 | the current method becomes the method the declaration names; a declaration without a name throws and changes nothing |
| UndeclaredVariable.UndeclaredVariableVisitor.VisitVarRefExpr | src/main/pt/up/fe/comp2025/analysis/passes/UndeclaredVariable.java:39-95 | the reports grow by exactly the report of the reference, or the visit throws and the reports stay as they were |
| UndeclaredVariable.Analyze | src/main/pt/up/fe/comp2025/analysis/passes/UndeclaredVariable.java:23-29 | the pass over the tree in preorder gives the reports of the visits, or the exception of the first visit that throws |
| Reports.FailureIsFinal | src/main/pt/up/fe/comp2025/analysis/passes/UndeclaredVariable.java:40-43 | for every analysis pass: when a failed outcome carries over unchanged from each visit to the next, a pass that has failed by some visit ends with that failure; each checker's PassStaysFailed is this fact for its own pass |
| UndeclaredVariable.PassContext | src/main/pt/up/fe/comp2025/analysis/passes/UndeclaredVariable.java:31-40 | the current method is that of the last method declaration met; a reference met before any method declaration throws |
| UndeclaredVariable.PassReportsUnresolved | src/main/pt/up/fe/comp2025/analysis/passes/UndeclaredVariable.java:39-95 | a pass that does not throw reports exactly the references that do not resolve in their method, in the order they are met |
| VarargsDeclarationCheck.ParamMessage | src/main/pt/up/fe/comp2025/analysis/passes/VarargsDeclarationCheck.java:40-53 | a parameter is reported exactly when it is an array and either an earlier parameter is one too or it is not the last; the message is "only one varargs" after an earlier array and "must be last" otherwise |
| VarargsDeclarationCheck.MethodReports | src/main/pt/up/fe/comp2025/analysis/passes/VarargsDeclarationCheck.java:20-59 | a declaration without a name throws NullPointerException; a method the table does not know or has no parameters for gives no reports; there are at most as many reports as parameters, and each is a semantic error at the method's position |
| VarargsDeclarationCheck.VisitMethodDecl | src/main/pt/up/fe/comp2025/analysis/passes/VarargsDeclarationCheck.java:20-59 | the scan with its seen flag reports, in parameter order and at the method's position, each array parameter after an earlier one and a first array parameter that is not the last; a method the table does not know, or without parameters, gives no reports; a declaration without a name throws |
| VarargsDeclarationCheck.ReportsShape | src/main/pt/up/fe/comp2025/analysis/passes/VarargsDeclarationCheck.java:37-56 | each parameter adds at most one report and every report is a semantic error at the method's position |
| VarargsDeclarationCheck.ReportsMention | src/main/pt/up/fe/comp2025/analysis/passes/VarargsDeclarationCheck.java:37-56 | a message is reported exactly when some parameter has it as its report |
| VarargsDeclarationCheck.NoReportsIff | src/main/pt/up/fe/comp2025/analysis/passes/VarargsDeclarationCheck.java:37-56 | no report exactly when every array parameter is the last parameter |
| VarargsDeclarationCheck.SecondVarargsReported | src/main/pt/up/fe/comp2025/analysis/passes/VarargsDeclarationCheck.java:41-46 | an array parameter after an earlier array parameter is always reported as a second varargs |
| VarargsDeclarationCheck.FirstVarargsMustBeLast | src/main/pt/up/fe/comp2025/analysis/passes/VarargsDeclarationCheck.java:47-53 | the first array parameter is reported as misplaced exactly when it is not the last |
| VarargsDeclarationCheck.MessagesDiffer | src/main/pt/up/fe/comp2025/analysis/passes/VarargsDeclarationCheck.java:45-51 | the two messages cannot be confused |
| VarargsDeclarationCheck.Analyze | src/main/pt/up/fe/comp2025/analysis/passes/VarargsDeclarationCheck.java:14-18 | the pass over the tree in preorder gives the reports of every method declaration, or the exception of the first that throws |
| VarargsDeclarationCheck.PassStaysFailed | src/main/pt/up/fe/comp2025/analysis/passes/VarargsDeclarationCheck.java:22 | once a visit throws, the pass ends with that exception (an instance of `Reports.FailureIsFinal`) |
| DuplicateDeclarationCheck.EnterMethod | src/main/pt/up/fe/comp2025/analysis/passes/DuplicateDeclarationCheck.java:32-36 | entering a method gives fresh, empty parameter and local sets and keeps the fields and the reports |
| DuplicateDeclarationCheck.DeclareVar | src/main/pt/up/fe/comp2025/analysis/passes/DuplicateDeclarationCheck.java:38-62 | a variable declaration throws exactly when it has no name; it never touches the parameter set |
| DuplicateDeclarationCheck.EnclosingMethodName | src/main/pt/up/fe/comp2025/analysis/passes/DuplicateDeclarationCheck.java:68-71 | the name of the enclosing method, or <unknown> when there is none |
| DuplicateDeclarationCheck.DeclareParam | src/main/pt/up/fe/comp2025/analysis/passes/DuplicateDeclarationCheck.java:64-80 | a parameter that does not throw has a name and comes after a method was entered; it keeps the fields and the locals |
| DuplicateDeclarationCheck.DuplicateDeclarationVisitor.constructor | src/main/pt/up/fe/comp2025/analysis/passes/DuplicateDeclarationCheck.java:16-20 | the visitor starts with no fields, no parameter or local sets and no reports |
| DuplicateDeclarationCheck.DuplicateDeclarationVisitor.VisitMethod | src/main/pt/up/fe/comp2025/analysis/passes/DuplicateDeclarationCheck.java:32-36 | the new state is that of entering a method |
| DuplicateDeclarationCheck.DuplicateDeclarationVisitor.VisitVarDecl | src/main/pt/up/fe/comp2025/analysis/passes/DuplicateDeclarationCheck.java:38-62 | the new state, or the exception, is that of declaring the variable |
| DuplicateDeclarationCheck.DuplicateDeclarationVisitor.VisitParam | src/main/pt/up/fe/comp2025/analysis/passes/DuplicateDeclarationCheck.java:64-80 | the new state, or the exception, is that of declaring the parameter |
| DuplicateDeclarationCheck.Analyze | src/main/pt/up/fe/comp2025/analysis/passes/DuplicateDeclarationCheck.java:22-30 | the pass over the tree in preorder gives the reports of the visits, or the exception of the first visit that throws |
| DuplicateDeclarationCheck.PassStaysFailed | src/main/pt/up/fe/comp2025/analysis/passes/DuplicateDeclarationCheck.java:39 | once a visit throws, the pass ends with that exception (an instance of `Reports.FailureIsFinal`) |
| DuplicateDeclarationCheck.LastMethod | src/main/pt/up/fe/comp2025/analysis/passes/DuplicateDeclarationCheck.java:32-36 | the position of the last method declaration met, with no method declaration after it |
| DuplicateDeclarationCheck.ScopeNamesMeans | src/main/pt/up/fe/comp2025/analysis/passes/DuplicateDeclarationCheck.java:33-34 | a name is in the current scope of a kind exactly when a declaration of that kind with that name was met since the last method declaration |
| DuplicateDeclarationCheck.FieldNamesBeforeMethods | src/main/pt/up/fe/comp2025/analysis/passes/DuplicateDeclarationCheck.java:40-49 | before the first method the field set is the set of variable declarations met |
| DuplicateDeclarationCheck.PassMeaning | src/main/pt/up/fe/comp2025/analysis/passes/DuplicateDeclarationCheck.java:16-80 | after a pass that did not throw, the field set holds every variable declared before the first method, the parameter and local sets are absent exactly while no method was entered and otherwise hold the names declared since the last method, and the reports are one per redeclaration |
| DuplicateDeclarationCheck.VarDeclStep | src/main/pt/up/fe/comp2025/analysis/passes/DuplicateDeclarationCheck.java:38-62 | a variable declaration keeps that description |
| DuplicateDeclarationCheck.ParamStep | src/main/pt/up/fe/comp2025/analysis/passes/DuplicateDeclarationCheck.java:64-80 | a parameter keeps that description |
| DuplicateDeclarationCheck.PassReports | src/main/pt/up/fe/comp2025/analysis/passes/DuplicateDeclarationCheck.java:38-80 | a pass that did not throw reports exactly the declarations whose kind and name already occur in their scope, in the order they are met, each with the message of its category |
| MethodVerification.ArityWindow | src/main/pt/up/fe/comp2025/analysis/passes/MethodVerificationVisitor.java:56-62 | a call is accepted for its number of arguments exactly when, for a varargs method, it passes at least one less than the number of parameters, and otherwise exactly that number |
| MethodVerification.Expected | src/main/pt/up/fe/comp2025/analysis/passes/MethodVerificationVisitor.java:70-72 | the type expected of an argument is its own parameter's, and past the parameters the last parameter's; a method without parameters throws |
| MethodVerification.InferType | src/main/pt/up/fe/comp2025/analysis/passes/MethodVerificationVisitor.java:94-119 | an integer literal is int, a boolean literal is boolean, a kind the check does not know is unknown; a variable reference has the type its lookup gives, or that lookup's exception; a call has the return type the table records for its method (absent when there is none); a reference or a call without its name attribute throws NullPointerException |
| MethodVerification.VarType | src/main/pt/up/fe/comp2025/analysis/passes/MethodVerificationVisitor.java:101-113 | typing a variable succeeds exactly when the table has locals for the current method and either declares the variable among them or has a parameter list for the method |
| MethodVerification.VarTypeIsFirstDeclaration | src/main/pt/up/fe/comp2025/analysis/passes/MethodVerificationVisitor.java:103-112 | a variable has the type of its first declaration among the locals, then the parameters, then the fields, and unknown when none declares it |
| MethodVerification.LookupList | src/main/pt/up/fe/comp2025/analysis/passes/MethodVerificationVisitor.java:104-107 | iterating a missing list throws; otherwise it is the list |
| MethodVerification.Arguments | src/main/pt/up/fe/comp2025/analysis/passes/MethodVerificationVisitor.java:54 | the arguments are the children after the receiver; a call without children throws |
| MethodVerification.ArgChecks | src/main/pt/up/fe/comp2025/analysis/passes/MethodVerificationVisitor.java:69-80 | one type check per argument, in order |
| MethodVerification.CallReports | src/main/pt/up/fe/comp2025/analysis/passes/MethodVerificationVisitor.java:38-83 | a call of a method that is not in the table's method list reports nothing |
| MethodVerification.ArgReportMeansMismatch | src/main/pt/up/fe/comp2025/analysis/passes/MethodVerificationVisitor.java:70-79 | an argument is reported exactly when its inferred type differs from the type expected of it |
| MethodVerification.CountAppend | src/main/pt/up/fe/comp2025/analysis/passes/MethodVerificationVisitor.java:62-80 | counting the reports with a message distributes over appending report lists |
| MethodVerification.MessagesDiffer | src/main/pt/up/fe/comp2025/analysis/passes/MethodVerificationVisitor.java:63-78 | the arity message and the type message cannot be confused |
| MethodVerification.ArityReportedOnce | src/main/pt/up/fe/comp2025/analysis/passes/MethodVerificationVisitor.java:56-80 | a checked call that does not throw carries the arity message once when its number of arguments is not accepted and never otherwise, followed by the type reports |
| MethodVerification.CheckedCall | src/main/pt/up/fe/comp2025/analysis/passes/MethodVerificationVisitor.java:53-82 | a call of a method with a parameter list reports its arity check, then its type checks, or throws where getting the arguments or typing an argument throws |
| MethodVerification.UndeclaredCall | src/main/pt/up/fe/comp2025/analysis/passes/MethodVerificationVisitor.java:47-51 | a call of a method the table lists without a parameter list is reported as undeclared, and only that |
| MethodVerification.MethodVerificationVisitor.constructor | src/main/pt/up/fe/comp2025/analysis/passes/MethodVerificationVisitor.java:23-25 | the visitor starts without a current method and without reports |
| MethodVerification.MethodVerificationVisitor.VisitMethodDecl | src/main/pt/up/fe/comp2025/analysis/passes/MethodVerificationVisitor.java:33-36 | the current method becomes the declaration's name; a declaration without a name throws and changes nothing |
| MethodVerification.MethodVerificationVisitor.VisitMethodCall | src/main/pt/up/fe/comp2025/analysis/passes/MethodVerificationVisitor.java:38-83 | the reports grow by exactly the reports of the call, or the visit throws with the call's exception |
| MethodVerification.MethodVerificationVisitor.CheckCall | src/main/pt/up/fe/comp2025/analysis/passes/MethodVerificationVisitor.java:53-82 | for a method with a parameter list, the arity report and then the type reports are added, or the visit throws |
| MethodVerification.MethodVerificationVisitor.CheckArguments | src/main/pt/up/fe/comp2025/analysis/passes/MethodVerificationVisitor.java:69-80 | the loop over the arguments gives the type reports in order, or the exception of the first argument that cannot be typed |
| MethodVerification.MethodVerificationVisitor.AddArgumentCheck | src/main/pt/up/fe/comp2025/analysis/passes/MethodVerificationVisitor.java:69-80 | one iteration of that loop |
| MethodVerification.MethodVerificationVisitor.CheckArgument | src/main/pt/up/fe/comp2025/analysis/passes/MethodVerificationVisitor.java:70-79 | the type check of one argument |
| MethodVerification.Analyze | src/main/pt/up/fe/comp2025/analysis/passes/MethodVerificationVisitor.java:27-31 | the pass over the tree in preorder gives the reports of the visits, or the exception of the first visit that throws |
| MethodVerification.PassStaysFailed | src/main/pt/up/fe/comp2025/analysis/passes/MethodVerificationVisitor.java:38-39 | once a visit throws, the pass ends with that exception (an instance of `Reports.FailureIsFinal`) |
| SymbolTableBuilder.FirstOfKinds | src/main/pt/up/fe/comp2025/symboltable/JmmSymbolTableBuilder.java:41-43 | the position of the first node of one of the kinds, with none before it, or -1 when there is none |
| SymbolTableBuilder.FindClass | src/main/pt/up/fe/comp2025/symboltable/JmmSymbolTableBuilder.java:40-48 | the first class declaration among the root's children; without one the check throws IllegalArgumentException |
| SymbolTableBuilder.ReturnTypeOf | src/main/pt/up/fe/comp2025/symboltable/JmmSymbolTableBuilder.java:79-85 | a method without a Var, VarArray or VarArgs child returns void; otherwise its first such child is converted |
| SymbolTableBuilder.Kept | src/main/pt/up/fe/comp2025/symboltable/JmmSymbolTableBuilder.java:113-114 | the declarations a loop keeps, in order: all of them for fields and parameters, and for locals only those with children |
| SymbolTableBuilder.KeptMeans | src/main/pt/up/fe/comp2025/symboltable/JmmSymbolTableBuilder.java:113-114 | a declaration is kept exactly when it is among those looked at and, for locals, has children |
| SymbolTableBuilder.DeclaredSymbols | src/main/pt/up/fe/comp2025/symboltable/JmmSymbolTableBuilder.java:55-66 | a declaration loop that does not throw keeps one symbol per kept declaration, duplicates included and in order, made of the converted type of its first child and its name |
| SymbolTableBuilder.DeclaredNames | src/main/pt/up/fe/comp2025/symboltable/JmmSymbolTableBuilder.java:57-61 | the names the loop has seen are the names of the declarations it kept |
| SymbolTableBuilder.DeclaredReports | src/main/pt/up/fe/comp2025/symboltable/JmmSymbolTableBuilder.java:61-64 | a declaration loop that does not throw reports exactly the kept declarations whose name an earlier kept declaration has, in order, with the message of its scope |
| SymbolTableBuilder.DuplicateReportsSnoc | src/main/pt/up/fe/comp2025/symboltable/JmmSymbolTableBuilder.java:61-64 | one more kept declaration is reported exactly when an earlier one has its name |
| SymbolTableBuilder.DeclaredCount | src/main/pt/up/fe/comp2025/symboltable/JmmSymbolTableBuilder.java:55-66 | the reports and the distinct names of a loop together number its kept declarations |
| SymbolTableBuilder.MethodNames | src/main/pt/up/fe/comp2025/symboltable/JmmSymbolTableBuilder.java:70-73 | the method names in declaration order; a method without a name throws |
| SymbolTableBuilder.ReturnTypesKeys | src/main/pt/up/fe/comp2025/symboltable/JmmSymbolTableBuilder.java:76-87 | every method name has a return type and nothing else has |
| SymbolTableBuilder.ReturnTypeOfLast | src/main/pt/up/fe/comp2025/symboltable/JmmSymbolTableBuilder.java:86 | the last method of a name decides its return type |
| SymbolTableBuilder.MethodResults | src/main/pt/up/fe/comp2025/symboltable/JmmSymbolTableBuilder.java:90-124 | the parameter or local loop of every method, each with its own seen set |
| SymbolTableBuilder.PerMethodKeys | src/main/pt/up/fe/comp2025/symboltable/JmmSymbolTableBuilder.java:104 | every method name has a parameter list and a local list, and nothing else has |
| SymbolTableBuilder.PerMethodLast | src/main/pt/up/fe/comp2025/symboltable/JmmSymbolTableBuilder.java:104 | the last method of a name decides its entry |
| SymbolTableBuilder.SubIds | src/main/pt/up/fe/comp2025/symboltable/JmmSymbolTableBuilder.java:131-133 | the ID of each sub-node of an import, in order |
| SymbolTableBuilder.JoinIds | src/main/pt/up/fe/comp2025/symboltable/JmmSymbolTableBuilder.java:130-133 | appending the sub-nodes' IDs succeeds exactly when each of them has an ID, and throws NullPointerException otherwise |
| SymbolTableBuilder.ImportName | src/main/pt/up/fe/comp2025/symboltable/JmmSymbolTableBuilder.java:128-135 | an import has a name exactly when it and every sub-node have an ID, and the name is those IDs joined by dots; otherwise NullPointerException |
| SymbolTableBuilder.JoinIdsIsJoin | src/main/pt/up/fe/comp2025/symboltable/JmmSymbolTableBuilder.java:130-134 | an import's name is its own ID followed by its sub-nodes' IDs, joined by dots |
| SymbolTableBuilder.ImportsCount | src/main/pt/up/fe/comp2025/symboltable/JmmSymbolTableBuilder.java:127-136 | one import name per import statement among the root's children, in order |
| SymbolTableBuilder.ClassFields | src/main/pt/up/fe/comp2025/symboltable/JmmSymbolTableBuilder.java:55-67 | the fields of the class are one per variable declaration of the class, in order, duplicates included |
| SymbolTableBuilder.ClassMethods | src/main/pt/up/fe/comp2025/symboltable/JmmSymbolTableBuilder.java:69-124 | the methods of the class are listed in declaration order, and the return types, parameters and locals have an entry for every method name and no other |
| SymbolTableBuilder.BuildMeaning | src/main/pt/up/fe/comp2025/symboltable/JmmSymbolTableBuilder.java:37-145 | a build that does not throw takes the class from the first class declaration, names the table after it, gives an empty superclass when there is no extendedClass, and lists the import names in order |
| SymbolTableBuilder.BuildTable | src/main/pt/up/fe/comp2025/symboltable/JmmSymbolTableBuilder.java:37-145 | a program without a class declaration throws IllegalArgumentException, a class without a name NullPointerException; a build that succeeds found the class and its members and reports exactly the members' duplicates |
| SymbolTableBuilder.JmmSymbolTableBuilder.constructor | src/main/pt/up/fe/comp2025/symboltable/JmmSymbolTableBuilder.java:18-23 | the builder starts with an empty report list (the source holds no list until the first build) |
| SymbolTableBuilder.JmmSymbolTableBuilder.Build | src/main/pt/up/fe/comp2025/symboltable/JmmSymbolTableBuilder.java:37-145 | the built table and its duplicate reports, or the exception that stops the build |
| SymbolTableBuilder.CollectMembers | src/main/pt/up/fe/comp2025/symboltable/JmmSymbolTableBuilder.java:54-124 | the loops over the class's declarations compute the class members |
| SymbolTableBuilder.CollectDeclarations | src/main/pt/up/fe/comp2025/symboltable/JmmSymbolTableBuilder.java:55-66 | a declaration loop with its seen set computes the declared symbols and reports |
| SymbolTableBuilder.Declare | src/main/pt/up/fe/comp2025/symboltable/JmmSymbolTableBuilder.java:58-65 | one iteration of that loop |
| SymbolTableBuilder.DeclaredStaysFailed | src/main/pt/up/fe/comp2025/symboltable/JmmSymbolTableBuilder.java:59-60 | once a declaration throws, the loop ends with that exception |
| SymbolTableBuilder.ListMethods | src/main/pt/up/fe/comp2025/symboltable/JmmSymbolTableBuilder.java:70-73 | the loop over the methods computes the method names |
| SymbolTableBuilder.CollectReturnTypes | src/main/pt/up/fe/comp2025/symboltable/JmmSymbolTableBuilder.java:76-87 | the loop over the methods computes the return-type map |
| SymbolTableBuilder.CollectPerMethod | src/main/pt/up/fe/comp2025/symboltable/JmmSymbolTableBuilder.java:90-124 | the loop over the methods computes the parameter or local map and its reports |
| SymbolTableBuilder.AddMethod | src/main/pt/up/fe/comp2025/symboltable/JmmSymbolTableBuilder.java:91-105 | one iteration of that loop |
| SymbolTableBuilder.CollectMethod | src/main/pt/up/fe/comp2025/symboltable/JmmSymbolTableBuilder.java:93-103 | the parameter or local loop of one method |
| SymbolTableBuilder.CollectImports | src/main/pt/up/fe/comp2025/symboltable/JmmSymbolTableBuilder.java:127-136 | the loop over the root's children computes the import names |
| SymbolTableBuilder.BuildImportName | src/main/pt/up/fe/comp2025/symboltable/JmmSymbolTableBuilder.java:130-134 | the string-builder loop of one import computes its name |

## Left out

- The OLLIR library types (`ClassUnit`, `Method`, `Descriptor`, `Instruction`, `Operand`) are replaced by the datatypes and classes of `ir.dfy`. `buildCFGs` and `getSuccessors` are replaced by a successor list per instruction that the caller supplies.
- `getJasminType` is not part of this model's sources. The model gives it the field-descriptor shapes of section 4.3.2 of the Java Virtual Machine Specification: `I`, `Z`, `V`, `Ljava/lang/String;`, `L<name>;` and `[<element>`.
- `TypeUtils.convertType`, which the symbol-table builder calls, is not part of this model. It is a `convert` parameter of the builder.
- `OptUtils.toOllirType(JmmNode)` (`OptUtils.java:44-49`) checks that the node is a `TYPE` node and hands it to `TypeUtils.convertType`, which is not part of this model, so it is not modelled. The overloads on a type and on a type name are (`OptUtils.ToOllirType`, `OptUtils.OllirTypeOfName`).
- Labels made from `System.nanoTime()` (in the less-than idiom and the `NOT` idiom of `JasminGenerator.java`) are clock readings that the caller passes in as a `Stamps` parameter. Their uniqueness is not claimed, because the source does not ensure it.
- Console and debug output (`System.out`, `System.err`, the `debug.regalloc` property) is I/O. It is not modelled. The report list that `allocateRegisters` only prints is returned instead.
- `JmmAnalysisImpl.java` and `JmmOptimizationImpl.java` only sequence the passes and read configuration. They are not modelled.
- `OllirExprGeneratorVisitor.java` and `OllirGeneratorVisitor.java` lower the AST to OLLIR text. They depend on front-end types that are not part of this model, so they are not modelled.
- `ReturnCheckVisitor.java` and `BinaryOperationCheck.java` rest on `TypeUtils` type inference, which is not part of this model. They are not modelled.
- `optimization/visitors/ConstantPropagationVisitor.java` is an experimental pass that the optimiser does not use. It is not modelled.
- `SymbolTableTest.java` depends on `.jmm` resource files that are not part of this model. It is not modelled.
- `iand` is read only on 0 and 1, the values booleans take, because the emitter writes it only for `&&`; its bitwise meaning on other values is not modelled.
- The `f64` and `f32` entries of the OLLIR type table are string mapping only. No floating-point computation is modelled.
- `AnalysisVisitor` and `PreorderJmmVisitor` are not part of this model's sources. Both are read as the library's preorder visitor: the handler registered for the node's kind runs, and then every child of the node is visited, with the visitor's fields shared. The analysis passes' handlers never recurse, so for them this is one visit per node in preorder. The constant-propagation handlers do recurse, so under this reading the children are visited a second time (`ConstantPropagation.Walk` with `AsWritten`).
- ConstantPropagation.WalkWithElse: the kind names `WithElseStmt` and `NoElseStmt` of the if statements are assumed from the grammar, which is not part of this model; they matter only to the corrected walk.
- ConstantPropagation.ConstantNode: the created literal's source position is not known and is 0, 0.
- Tree edits in place are modelled on values: the fold's `put` and `clear`, and the propagation's `replace`. A visit returns the rewritten tree, so aliasing of `JmmNode` objects is not captured.
- ConstantFolding: only `foldBinary`, the arithmetic decision, is modelled. The visitor's own traversal of the tree is not.
- ConstantPropagation.ConstantPropagationVisitor.Visit: requires a well-formed tree, meaning every attribute and child the handlers read is present and a variable reference is a leaf, as in the grammar. The source would throw on an ill-formed tree, and that path is not modelled.
- OptUtils.OptUtils.NextFreshTemp: requires the counter to be below the largest Java `int`, so that the fresh-name claim holds. `NextTemp` and `NextLabel` model the wrap-around without that requirement.
- OptUtils.OptUtils.NextFreshLabel: requires the counter to be below the largest Java `int`, for the same reason.
- The emitters of `jasmin_code.dfy` state when they produce code and which exceptions they throw. Their text is stated for literals, loads, stores, returns, `iinc` and less-than comparisons.
- JasminCode.GenerateUnaryOp: states only that there is code exactly when the operand has code and the operator is a negation, and the exceptions it throws otherwise; the lines it emits are not stated.
- JasminCode.GenerateInvoke: states only when a call has code and the NullPointerException of a call without a receiver; the lines it emits are not stated beyond the descriptor (`JasminTypes.MethodDescriptor`).
- JasminCode.GenerateArrayLength: states only that there is code exactly when there is an array operand with code; the lines it emits are not stated.
- JasminCode.GenerateGetField: states only that there is code exactly when the object operand has code; the lines it emits are not stated.
- JasminCode.GeneratePutField: states only that there is code exactly when the object operand and the value have code; the lines it emits are not stated.
- MethodVerification.TypeText: `Type.toString` is not part of this model. Its text is assumed to be the type's name followed by `[]` for an array. This rendering only affects the text of the argument-type mismatch message.
- JasminCode.TypeText: the OLLIR `Type.toString` is not part of this model either. It is assumed to be the class name for a class type and the type descriptor otherwise. It decides only whether `invokespecial` names the current class, in `SpecialClass`.
- Coloring.GraphColoring.Color: on failure it states the count the source reports, which is one more than the largest degree in the remaining graph. It does not state that no colouring with `maxColors` colours exists, because the source does not establish that. On success each colour lies in a window of `maxColors` plus the number of reserved slots, starting at the first free slot; the source promises no tighter bound. A limit of 0 means no limit, as in the source.
- MethodVerification.MethodVerificationVisitor.VisitMethodCall: on the exception path it does not state which reports were already added. The arity report precedes any argument check that throws.
- MethodVerification.MethodVerificationVisitor.CheckCall: on the exception path it does not state which reports were already added, for the same reason.
- SymbolTableBuilder.JmmSymbolTableBuilder.Build: on the exception path it does not state the reports added before the exception.
- Liveness.Defs: uses the corrected def sets, which depart from the source's as the Findings rows for `RegisterAllocation.java:184-193`, `RegisterAllocation.java:240-241` and `RegisterAllocation.java:304-305` say.
- Liveness.Uses: uses the corrected use sets, which depart from the source's as the Findings rows for `RegisterAllocation.java:184-193`, `RegisterAllocation.java:240-241` and `RegisterAllocation.java:304-305` say: they also read array indices, the array of an element store, a field access's object, a stored field value and the operands of an instruction that is a bare operation, as `Liveness.CorrectedDefUseRefine` states.
- Liveness.LivenessAnalysis.Analyze: fills in the corrected def and use sets, not the ones `calculateDefUseSets` computes; see the Findings rows for `RegisterAllocation.java:184-193`, `RegisterAllocation.java:240-241` and `RegisterAllocation.java:304-305`.
- Liveness.LivenessAnalysis.CalculateDefUseSets: fills in the corrected sets; see the Findings rows for `RegisterAllocation.java:184-193`, `RegisterAllocation.java:240-241` and `RegisterAllocation.java:304-305`.
- RegisterAllocation.AllocateRegistersForMethod: the allocation is sound for the corrected liveness sets only; with the source's sets two interfering variables may share a slot, as the Findings rows for `RegisterAllocation.java:184-193`, `RegisterAllocation.java:240-241` and `RegisterAllocation.java:304-305` show.
- RegisterAllocation.BuildInterference: its edges come from the corrected liveness sets, not the source's; see the Findings rows for `RegisterAllocation.java:184-193`, `RegisterAllocation.java:240-241` and `RegisterAllocation.java:304-305`.
- RegisterAllocation.ColorInterference: colours the graph built from the corrected liveness sets; see the Findings rows for `RegisterAllocation.java:184-193`, `RegisterAllocation.java:240-241` and `RegisterAllocation.java:304-305`.
- RegisterAllocation.AllocateNonEmpty: the same departure as `AllocateRegistersForMethod`.
- RegisterAllocation.AllocateAndReport: the same departure as `AllocateRegistersForMethod`.
- RegisterAllocation.RegisterAllocation.AllocateRegisters: the same departure as `AllocateRegistersForMethod`, for every method.
- JasminCode.GenerateBinaryOp: loads the operands of a less-than comparison once; see the Findings row for `JasminGenerator.java:595-635`.
- JasminCode.GenerateAssign: does not fuse an assignment to an array element into `iinc`; see the Findings row for `JasminGenerator.java:431-446`.
- JasminCode.GenerateInstruction: dispatches to the corrected `GenerateBinaryOp` and `GenerateAssign`; see the Findings rows for `JasminGenerator.java:595-635`, `JasminGenerator.java:431-446`.
- JasminCode.ElementAssignOrder: is about the corrected assignment; as written, `a[i] = a[j] + 1` takes the `iinc` path first, as the Findings row for `JasminGenerator.java:431-446` shows.
- JasminLimits.StackLimit: counts the peak of each instruction's step count; see the Findings row for `JasminGenerator.java:314-400`. The source's limit is `StackLimitAsWritten`. The step table (`JasminGenerator.java:322-343`) is the source's own and is not checked against the emitted code: it does not count, for one, the array reference and index that an element store pushes before its right-hand side (`JasminGenerator.java:449-454`), so `a[i] = o.f(p, q, r)` has six values on the stack while the limit is 4. The limit is not claimed to bound the emitted code's stack.
- JasminLimits.CalculateStackLimit: computes the corrected limit; see the Findings row for `JasminGenerator.java:314-400`.
- JasminGenerator.MethodCode: uses the corrected stack limit and the corrected emitters; see the Findings rows for `JasminGenerator.java:595-635`, `JasminGenerator.java:431-446` and `JasminGenerator.java:314-400`.
- JasminGenerator.ClassCode: uses `MethodCode` and so the same corrections; see the Findings rows for `JasminGenerator.java:595-635`, `JasminGenerator.java:431-446` and `JasminGenerator.java:314-400`.
- JasminGenerator.JasminGenerator.GenerateClassUnit: computes `ClassCode`, with the same corrections; see the Findings rows for `JasminGenerator.java:595-635`, `JasminGenerator.java:431-446` and `JasminGenerator.java:314-400`.
- JasminGenerator.JasminGenerator.GenerateMethods: computes the corrected methods' text; see the Findings rows for `JasminGenerator.java:595-635`, `JasminGenerator.java:431-446` and `JasminGenerator.java:314-400`.
- JasminGenerator.JasminGenerator.AppendMethod: one step of the same corrected loop; see the Findings rows for `JasminGenerator.java:595-635`, `JasminGenerator.java:431-446` and `JasminGenerator.java:314-400`.
- JasminGenerator.JasminGenerator.GenerateMethod: computes `MethodCode`, with the same corrections; see the Findings rows for `JasminGenerator.java:595-635`, `JasminGenerator.java:431-446` and `JasminGenerator.java:314-400`.

## Findings

| source | as written | input that shows it | evidently intended | confidence | as-written member | corrected member |
|---|---|---|---|---|---|---|
| src/main/pt/up/fe/comp2025/optimization/RegisterAllocation.java:184-193 | an array element is an `Operand`, so the store `a[i] := v` defines `a`; no array or index operand is ever used | `i := 0; j := 5; x := a[i]; y := x + j; return y`: `i` and `j` never interfere, so they may share a slot although `i` is read while `j` still holds 5 | the array and its index are uses, and an element store defines nothing | not executed | LivenessFindings.ArrayIndexIgnoredAsWritten | LivenessFindings.ArrayIndexUsedCorrected |
| src/main/pt/up/fe/comp2025/optimization/RegisterAllocation.java:240-241 | `PUTFIELD`, `GETFIELD` and an instruction that is a bare operation fall into the default case, so a stored value, a field access's object and such an operation's operands are never used | `v := 1; w := 2; putfield(this, f, v); return w`: `v` and `w` never interfere, so they may share a slot | the stored value, the object and the operands are uses | not executed | LivenessFindings.FieldValueIgnoredAsWritten | LivenessFindings.FieldValueUsedCorrected |
| src/main/pt/up/fe/comp2025/optimization/RegisterAllocation.java:304-305 | a field read on the right of an assignment falls into the default case of `addOperandsToUseSet`, so its object is never used | `o := p; x := 1; y := getfield(o, f); return x`: `o` and `x` never interfere, so they may share a slot although `o` is read while `x` is live | the object of a field read is a use | not executed | LivenessFindings.FieldObjectIgnoredAsWritten | LivenessFindings.FieldObjectUsedCorrected |
| src/main/pt/up/fe/comp2025/backend/JasminUtils.java:48-62 | the compact-form tables are indexed with the slot itself, one entry off | slot 0 gives a bare `iload`, slot 1 gives `iload_0`, a reference store into slot 4 gives `astore_3` | slot n gives `iload_n` for n up to 3, and `iload n` beyond; the defect is latent, because `JasminGenerator` chooses loads and stores with its own switches (`JasminGenerator.java:491-506` and `551-566`) and calls only `getModifier` (line 262) of `JasminUtils` | not executed | JasminUtils.GetLoadInstructionAsWritten | JasminUtils.LoadInstruction |
| src/main/pt/up/fe/comp2025/backend/JasminGenerator.java:595-635 | a less-than comparison loads both operands before the switch and again inside it | `x < y` reaches its `if_icmplt` with two extra values on the stack | each operand is loaded once | not executed | JasminFindings.LessLeavesOperandsAsWritten | JasminCode.LessBalanced |
| src/main/pt/up/fe/comp2025/backend/JasminGenerator.java:431-446 | `iinc` fusion does not exclude an array-element target | `a[i] = a[j] + 1` becomes `iinc` on the array's slot | only a plain local is incremented in place | not executed | JasminFindings.ElementIncrementAsWritten | JasminFindings.ElementIncrementCorrected |
| src/main/pt/up/fe/comp2025/backend/JasminGenerator.java:314-400 | the stack limit counts each instruction's net effect only, so the peak inside an instruction is missed | a virtual call on an object with four arguments: limit 4, with five values on the stack before the call | the limit covers the peak of every instruction's step count, by the source's own step table (which is not checked against the emitted code; see "## Left out") | not executed | JasminLimits.CallPeakMissedAsWritten | JasminLimits.StackLimit |
| src/main/pt/up/fe/comp2025/optimization/ConstantPropagationVisitor.java:43-60 | the class extends `PreorderJmmVisitor` (line 14), so after `visitMethodDecl` has walked the body the base visits the children again with the map the walk left | `{ io(x); x = 5; }` from an empty map: the read before the assignment becomes `5` | each statement is visited once, so a read sees only the assignments before it | not executed | ConstantPropagation.BackLeakAsWritten | ConstantPropagation.BackLeakCorrected |
| src/main/pt/up/fe/comp2025/optimization/ConstantPropagationVisitor.java:62-78 | after `visitWhileStmt` restores `insideLoop`, the base visits the condition and the body again outside the loop | `while (c) { y = x; }` with `x` bound to 1 and `y` loop-modified: the body becomes `y = 1;` | nothing inside a loop is rewritten | not executed | ConstantPropagation.LoopReadAsWritten | ConstantPropagation.WhileUnchanged |
| src/main/pt/up/fe/comp2025/optimization/ConstantPropagationVisitor.java:187-192 | an if statement has no handler, so the default visit walks both branches one after the other and the map of the else branch wins | `if (c) x = 1; else x = 2;` from an empty map leaves `x` bound to 2, so a later read becomes `2` | after an if a variable keeps only a constant both branches agree on | not executed | ConstantPropagation.IfNoMergeAsWritten | ConstantPropagation.IfMergeCorrected |
