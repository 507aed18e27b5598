# cc0: proofs about the compiler, the linker and two distributed programs

cc0 compiles c0, a C dialect with transactional tasks, to i0 machine code. This project models the parts of it that
carry its hardest guarantees, and proves them.

- **Lowering and the peephole optimizer** (`IL`, `Source`, `Lowering*`, `ILGenerator`, `StatementProof`, `ProgramProof`,
  `Divergence`, `Operators`, `Peephole*`, `NopDeletion`, `Optimizer*`, `EliminatedVariables`, `ILOptimizer`, `Pipeline`). Structured
  programs become flat code with labels and temporaries; the optimizer fuses and collapses pairs until nothing changes.
  The intermediate language gets a step semantics on a machine whose arithmetic, loads and calls are arbitrary functions.
  Compiled code ends exactly when its source does, in the same values.
- **The k-means protocol** (`KMeans*`). Workers, watchers and the counter `iter` run as attempts on snapshots that commit
  atomically. Every interleaving computes the sequential algorithm, is never stuck, and commits a fixed number of times.
- **PageRank's array algorithms** (`Partition`, `QuickSort`, `TopK`, `GraphIndex`).
- **The i0 instruction encoder** (`InstructionSet`, `EncodingLength`, `InstructionDecoding`, `InstructionRoundTrip`,
  `InstructionStream`, `OperandBytes`, `InstructionEncoder`).
- **Calls, frames and code addresses** (`CallingConvention`, `ParameterSlots`, `FrameLayout`, `WordBits`,
  `CodeAddresses`).
- **The linker** (`LinkNames`, `LinkObjects`, `LinkMerge`, `LinkSymbols`, `LinkPurge`, `Linker`).

Where a program works step by step the model does too: `ILGenerator`, `ILOptimizer`, `Space`, `TagItPool` and
`I0CodeGenerator` are classes, the array algorithms are loops over arrays, and each method is proved against a function
whose properties are the lemmas of the table. What model and specification share (operator tables, immediate widths,
means and distances, address words, relinked operands, record layouts) is also pinned down from outside, in literal terms:
`Operators`, `OperandBytes`, `KMeansReference`, `WordBits`, and the lemmas beside the functions concerned.

## Assumptions

- The runtime is what doc/c0/c0.tex says at lines 274 to 302: children start after their parent has committed, aborts
  discard their writes, a commit to what a watcher watches activates it unless an instance is waiting already. A commit
  goes through if nothing in the ranges it names has changed; otherwise the attempt is executed again. The model
  allows more activations and restarts than the runtime makes.
- The optimizer's theorems hold for functions in which each variable is mentioned under one operand type, compare results
  are block-local, and only variables outside blocks or with their address taken are visible to calls. Lowering gives
  that for the modelled fragment. Comparison is on totally ordered values.
- Object files are as the compiler writes them: tables sorted by name, functions in their own file's table, references to
  names in that table.
- Addresses in the frame model do not wrap around, and every word is eight bytes.
- Bytes of floating-point immediates are taken in little-endian order.

## Where code and comments disagree

- `continue` leaves the loop: its label is set to the break label.
- A centroid without points is meant to be disabled by moving it far away, but its squared distance wraps around in 64
  bits, and it can beat real ones; the table has the exact condition.
- The sort's stack suffices for 5120 elements; an ascending range of more aborts. The overflow check follows the writes,
  so the model's stack array has two entries more than the program's.
- The number of vertices is the source of the last edge, so that source itself is outside the index.
- The optimizer stops early if a pair is hidden by a Nop that was there before.
- Two declarations of a name are not compared if some file defines a function of that name.

## Model

| member | source | states |
|---|---|---|
| `Pipeline.CompiledPreserves` | src/toolchain/core/Pass/ILOptimizer.cpp:288-327 | If a continue-free function of `long` variables runs to its end or into a trap, its lowered and optimized code does the same, and at the end every variable not eliminated has the value the source gives it |
| `Pipeline.CompiledValues` | src/toolchain/core/Pass/ILOptimizer.cpp:288-327 | The same in terms of the run alone: after some steps the code has faulted, if the source traps, or it is past its last instruction and every variable it mentions, or mentioned no more before it was optimized, holds what the source leaves there |
| `Pipeline.CompiledHaltsIff` | src/toolchain/core/Pass/ILGenerator.cpp:351-404 | Optimized code comes to an end exactly when its source does |
| `Pipeline.LoweredIsOptimizable` | src/toolchain/core/Pass/ILOptimizer.cpp:59-286 | Lowering establishes every side condition the optimizer needs (one operand type per variable, compare results in block-local variables, no address taken), so optimizing it keeps its runs, eliminates only block-local variables and ends in a fixpoint |
| `LoweringTheorems.LoweringPreserves` | src/toolchain/core/Pass/ILGenerator.cpp:159-201 | The generated code of a function ends like the source, with the source values in all program variables; a trap is a trap |
| `LoweringTheorems.LoweringDiverges` | src/toolchain/core/Pass/ILGenerator.cpp:351-404 | Code of a source run that never ends never ends |
| `LoweringTheorems.LoweringSucceedsIff` | src/toolchain/core/Pass/ILGenerator.cpp:291-328 | Code is generated exactly when every break and continue is inside a loop |
| `LoweringTheorems.FailsIff` | src/toolchain/core/Pass/ILGenerator.cpp:300-323 | At any nesting depth generation fails exactly for a jump outside every loop, and the loop stack and scope stack are restored |
| `LoweringTheorems.ContinueIsLoweredAsBreak` | src/toolchain/core/Pass/ILGenerator.cpp:358 | The continue label is the break label: a program and the same program with break for continue have identical code |
| `LoweringTheorems.ContinueIsMiscompiled` | src/toolchain/core/Pass/ILGenerator.cpp:357-359 | For a concrete loop the source leaves 1 in the variable and the generated code 0 |
| `ProgramProof.StmtRuns` | src/toolchain/core/Pass/ILGenerator.cpp:173-201 | Control-flow simulation: code of any statement, placed anywhere in a finished body, goes to its end, to the innermost loop's end, or into a trap, as the statement does |
| `ProgramProof.LoopRuns` | src/toolchain/core/Pass/ILGenerator.cpp:361-401 | The rounds of a loop (test first, test last, no test, with or without a step) from the start label on |
| `Divergence.StmtLasts` | src/toolchain/core/Pass/ILGenerator.cpp:351-404 | A statement that is not done within some fuel has code that is not done within that many steps |
| `LoweringProof.ExprRuns` | src/toolchain/core/Pass/ILGenerator.cpp:41-157 | The code of an expression leaves its value in the result operand and every earlier symbol as it was; it traps exactly if the expression does |
| `Operators.OperatorValue` | src/toolchain/core/Pass/ILGenerator.cpp:71-125 | What each of the 14 operators computes in the source: a comparison 1 or 0 by the relation it is named for, anything else what the machine instruction of its name makes of the operands; a trapping operand traps |
| `Operators.BinaryCode` | src/toolchain/core/Pass/ILGenerator.cpp:41-157 | A binary expression becomes its operands' code, left before right, and one instruction with the opcode of its operator (Less: CompLt, Greater: CompGt, Plus: Add, and so on), on operands of the left one's type; results of comparisons have type I |
| `Operators.UnaryCode` | src/toolchain/core/Pass/ILGenerator.cpp:254-581 | Constants and variables are operands as they are, with every field given; a negation is one Neg; a conversion is one Conv or, to the same type, nothing |
| `Operators.OperatorRuns` | src/toolchain/core/Pass/ILGenerator.cpp:41-157 | The code of a binary expression, placed anywhere, leaves in its result operand what the operator computes from the operands' values, or traps |
| `LoweringShape.StmtIsGood` | src/toolchain/core/Pass/ILGenerator.cpp:159-201 | Lowering only appends code, places each label once, adds only fresh symbols, and every instruction agrees with the symbol tables |
| `Lowering.FreshId` | src/toolchain/core/Pass/ILGenerator.cpp:1176-1190 | The first number whose temporary name no enclosing scope knows |
| `Lowering.GenTemp` | src/toolchain/core/Pass/ILGenerator.cpp:1176-1198 | A temporary is a variable no table had before |
| `Lowering.TempIs` | src/toolchain/core/Pass/ILGenerator.cpp:1176-1198 | A temporary is __temp_ with the first number from the counter on whose name no enclosing scope has, in the innermost scope; only the table and the counter change |
| `TempNames.TempNameRoundTrip` | src/toolchain/core/Pass/ILGenerator.cpp:1183-1184 | Different counters give different temporary names |
| `ILGenerator.ILGenerator.GenerateTemp` | src/toolchain/core/Pass/ILGenerator.cpp:1176-1198 | The counting loop finds the first fresh name and adds it to the innermost scope |
| `ILGenerator.ILGenerator.VisitExpression` | src/toolchain/core/Pass/ILGenerator.cpp:41-157 | The visitor appends the code the lowering function describes and returns its result operand |
| `ILGenerator.ILGenerator.VisitAssign` | src/toolchain/core/Pass/ILGenerator.cpp:706-726 | The source, then one Mov into the target |
| `ILGenerator.ILGenerator.VisitBlock` | src/toolchain/core/Pass/ILGenerator.cpp:159-171 | Scope pushed, statements in order, scope popped |
| `ILGenerator.ILGenerator.VisitConditional` | src/toolchain/core/Pass/ILGenerator.cpp:173-201 | The single-condition form: BrNz to the true label, false branch, jump, true label, true branch, break label |
| `ILGenerator.ILGenerator.VisitGoto` | src/toolchain/core/Pass/ILGenerator.cpp:300-327 | A jump to the innermost loop's label, or an error |
| `ILGenerator.ILGenerator.VisitLoop` | src/toolchain/core/Pass/ILGenerator.cpp:351-404 | Three labels, the loop pushed while its code is generated, tests before or after |
| `PeepholeSpec.EqualIsIdentity` | src/toolchain/core/IL/IL.cpp:146-160 | Equal on constructed operands is identity, operand type included |
| `PeepholeProof.RewritePreserves` | src/toolchain/core/Pass/ILOptimizer.cpp:77-158 | One fusion or one collapse preserves every run up to the variable it removes |
| `PeepholeProof.RewriteUses` | src/toolchain/core/Pass/ILOptimizer.cpp:21-35 | A rewriting removes both uses of the variable it eliminates and no other use, so counts taken on the old body stay valid during a pass |
| `PeepholeRewrite.PairIsIsolated` | src/toolchain/core/Pass/ILOptimizer.cpp:87-89 | Two uses under one operand type mean the variable occurs nowhere outside the pair |
| `PeepholeRewrite.FuseAdvances` | src/toolchain/core/Pass/ILOptimizer.cpp:96-108 | Comparing and branching on the result is the fused branch: swapped or negated, every jump decision is kept |
| `PeepholeRewrite.CollapseAdvances` | src/toolchain/core/Pass/ILOptimizer.cpp:184-275 | Computing into a temporary and copying it is computing into the copy's target |
| `NopDeletion.WithoutNopsEquivalent` | src/toolchain/core/Pass/ILOptimizer.cpp:37-56 | Deleting Nops preserves every run |
| `OptimizerTheorems.PassPreserves` | src/toolchain/core/Pass/ILOptimizer.cpp:59-286 | One pass preserves every run of a disciplined function, up to the variables it eliminates, and keeps the discipline |
| `OptimizerTheorems.OptimizedPreserves` | src/toolchain/core/Pass/ILOptimizer.cpp:308 | Repeating passes until nothing changes preserves every run |
| `PeepholeSpec.PassShortens` | src/toolchain/core/Pass/ILOptimizer.cpp:273-286 | A pass that reports a change strictly shortens the body, so the loop ends |
| `OptimizerTheorems.OptimizedSettlesIff` | src/toolchain/core/Pass/ILOptimizer.cpp:288-327 | The result is a fixpoint exactly if the first pass changed something or no pair is left once the Nops are gone; then no fusable or collapsible pair remains and a second run changes nothing |
| `OptimizerTheorems.OptimizedSettles` | src/toolchain/core/Pass/ILOptimizer.cpp:308 | For bodies without Nops, such as lowered ones, the result always is a fixpoint |
| `OptimizerTheorems.VisitIs` | src/toolchain/core/Pass/ILOptimizer.cpp:59-270 | One round of the pass, opcode by opcode: which pairs are fused and into which branch on which operands, which ten computations are collapsed with a copy, and that anything else stays |
| `OptimizerTheorems.UnchangedIff` | src/toolchain/core/Pass/ILOptimizer.cpp:77-275 | A pass reports no change exactly if, away from both ends, no comparison is followed by a branch on it and none of the ten computations by a copy of it, under the conditions of the program |
| `OptimizerTheorems.NoPairIsLeft` | src/toolchain/core/Pass/ILOptimizer.cpp:308 | The optimizer leaves neither kind of pair in a body without Nops |
| `OptimizerLimits.NopsHideRedexes` | src/toolchain/core/Pass/ILOptimizer.cpp:37-56 | A body with a Nop between comparison and branch, on which the loop stops one pass early |
| `OptimizerLimits.OneTypePerVariableIsNeeded` | src/toolchain/core/IL/IL.cpp:149 | A mention under another operand type is not counted, and on every machine the pass then changes what the function returns |
| `EliminatedVariables.OptimizedRemovesOnlyPairs` | src/toolchain/core/Pass/ILOptimizer.cpp:180-183 | Only block-local variables used exactly twice are eliminated; every operand kept is used as often as before |
| `ILOptimizer.ILOptimizer.OperandUsedTwice` | src/toolchain/core/Pass/ILOptimizer.cpp:21-35 | True exactly if the operand occurs in two operand positions of the function |
| `ILOptimizer.ILOptimizer.DeleteNops` | src/toolchain/core/Pass/ILOptimizer.cpp:37-56 | The body without its Nops, and their number |
| `ILOptimizer.ILOptimizer.TryFuse` | src/toolchain/core/Pass/ILOptimizer.cpp:77-158 | Fuses exactly the pairs the specification calls fusable |
| `ILOptimizer.ILOptimizer.TryCollapse` | src/toolchain/core/Pass/ILOptimizer.cpp:184-275 | Collapses exactly the pairs the specification calls collapsible |
| `ILOptimizer.ILOptimizer.OptimizeFunction` | src/toolchain/core/Pass/ILOptimizer.cpp:59-286 | One pass over a copy of the body, counting uses on the original |
| `ILOptimizer.ILOptimizer.Optimize` | src/toolchain/core/Pass/ILOptimizer.cpp:288-327 | Every function ends as the fixpoint loop leaves it |
| `KMeansTheorems.CentroidsAreSequential` | apps/kmeans/L0/kmeans_common/on_recluster_finished.c:111-122 | In every interleaving, whenever `iter` is k the committed centroids are those of k sequential rounds, and k never exceeds MAX_ITER |
| `KMeansReference.CommittedCentroids` | apps/kmeans/L0/kmeans_common/on_recluster_finished.c:111-122 | In every interleaving the committed centroids are the last of iter rounds of a reference algorithm from the first K points on; iter is at most 6, and 6 exactly when nothing remains to commit |
| `KMeansReference.RecenteredIsRound` | apps/kmeans/L0/kmeans_common/on_recluster_finished.c:79-94 | A sequential round is one of the reference: each point goes to the first nearest centroid by exact squared distance in 64 bits, and each coordinate of a centroid is the sum of its points' coordinates, in 64 bits, divided by their number with the remainder smaller and of the sum's sign; without points it is 0x7FFFFFFFFFFFFFF |
| `KMeansReference.OneRound` | apps/kmeans/L0/kmeans_common/on_recluster_finished.c:79-94 | The reference leaves no choice: points and centroids determine the next centroids |
| `KMeansReference.CentroidIsMean` | apps/kmeans/L0/kmeans_common/on_recluster_finished.c:83-86 | Each coordinate of a mean is the truncated quotient of the coordinate sum |
| `KMeansReference.DistanceIs` | apps/kmeans/L0/kmeans_common/kmeans-common.h:125-130 | The distance, wrapped at every step, is the exact squared distance in 64 bits |
| `KMeansTheorems.RoundsAdvanceInOrder` | apps/kmeans/L0/kmeans_common/on_recluster_finished.c:25-42 | The counter moves by one, together with one sequential round of the centroids, and only when every worker of the round has committed |
| `KMeansTheorems.NeverTooEarly` | apps/kmeans/L0/kmeans_common/on_recluster_finished.c:30-34 | No watcher instance ever finds the counter short of the round it expects: that branch is never taken |
| `KMeansTheorems.NeverStuck` | doc/c0/c0.tex:288-302 | Until all rounds are done some waiting or running instance would commit: no activation is lost |
| `KMeansTheorems.CommitsCountDown` | apps/kmeans/L0/kmeans_common/start_iteration.c:12-61 | Every commit brings the end nearer by exactly one; nothing else changes the distance |
| `KMeansTheorems.CommitsAreCounted` | apps/kmeans/L0/kmeans_common/start_iteration.c:12-61 | Every complete interleaving commits (MAX_ITER + 1) * (N/PSIZE + 1) times |
| `KMeansTheorems.EndIsFinal` | apps/kmeans/L0/kmeans_common/on_recluster_finished.c:117-122 | Nothing is left to commit exactly when MAX_ITER rounds are done, and then the centroids are the sequential algorithm's |
| `KMeansProtocol.CommitsAreSerial` | doc/c0/c0.tex:288-302 | A commit without conflict is the execution of the whole function at once on the memory it commits to |
| `KMeansInvariant.NextIsSafe` | apps/kmeans/L0/kmeans_common/on_init1_finished.c:6-47 | Every step of the runtime keeps the protocol invariant: triggers, unfinished workers, watchers and centroids agree |
| `KMeansInvariant.RunIsSafe` | apps/kmeans/L0/kmeans_common/init0.c:10-30 | The invariant holds in every state of every interleaving |
| `KMeansInvariant.RoundAdvances` | apps/kmeans/L0/kmeans_common/on_recluster_finished.c:36-94 | What a round's watcher finds when it commits, and that the merged centroids are the next sequential ones |
| `KMeansTasks.TwoLevelsAreOnePass` | apps/kmeans/L0/kmeans_common/on_recluster_finished.c:53-94 | Worker sums merged by the watcher give the centroids of one sequential pass, in 64-bit arithmetic |
| `KMeansTasks.MergedIsOnePass` | apps/kmeans/L0/kmeans_common/on_recluster_finished.c:64-78 | After j partitions the merged sums and counts are those of exactly the points of these partitions whose first nearest centroid it is |
| `KMeansTasks.MergedCountsTotal` | apps/kmeans/L0/kmeans_common/recluster_runner.c:67-71 | The merged counts add up to N |
| `KMeansData.Nearest` | apps/kmeans/L0/kmeans_common/recluster_runner.c:49-66 | The first of the nearest centroids |
| `KMeansData.EveryPointIsAssigned` | apps/kmeans/L0/kmeans_common/recluster_runner.c:36-71 | Every point is assigned to exactly one centroid |
| `KMeansDisabled.DisabledIsNearerIff` | apps/kmeans/L0/kmeans_common/on_recluster_finished.c:88-94 | A centroid set far away to disable it still beats a real one exactly if the sum of the point's coordinates, each plus one, is 1 to 8 modulo 16, or 0 and the point is closer to (-1,-1,-1,-1) |
| `KMeansDisabled.DisabledDistance` | apps/kmeans/L0/kmeans_common/kmeans-common.h:125-130 | What the 64-bit squared distance to the disabled centroid is for every point with coordinates below 2^28 |
| `KMeansDisabled.OriginGoesToDisabled` | apps/kmeans/L0/kmeans_common/recluster_runner.c:49-66 | The origin is assigned to a disabled centroid although a real one lies on it |
| `KMeansPrograms.Space.FindNearest` | apps/kmeans/L0/kmeans_common/recluster_runner.c:49-66 | The inner loop finds the first nearest centroid |
| `KMeansPrograms.Space.ReclusterRunner` | apps/kmeans/L0/kmeans_common/recluster_runner.c:20-80 | The worker leaves the tallies of its partition in its local arrays, sets its trigger to 2, and changes nothing else |
| `KMeansPrograms.Space.StartIteration` | apps/kmeans/L0/kmeans_common/start_iteration.c:12-61 | Every trigger reset, one worker per partition, and a watcher for the current counter |
| `KMeansPrograms.Space.OnInit1Finished` | apps/kmeans/L0/kmeans_common/on_init1_finished.c:6-49 | Aborts unless every trigger is 1; otherwise takes the first points as centroids and starts the first round |
| `KMeansPrograms.Space.OnReclusterFinished` | apps/kmeans/L0/kmeans_common/on_recluster_finished.c:25-131 | The watcher with its guards, its merge and its advance |
| `KMeansPrograms.Space.MergeLocal` | apps/kmeans/L0/kmeans_common/on_recluster_finished.c:47-78 | The nested summation loops, over page-padded arrays |
| `KMeansPrograms.Space.InitRunner` | apps/kmeans/L0/kmeans_common/init_runner.c:48-81 | Reads one partition and sets its trigger to 1 |
| `KMeansPrograms.Space.SnapshotIs` | apps/kmeans/L0/kmeans_common/kmeans-common.h:97-112 | Which array element belongs to which partition and centroid: local elements begin K + 512 behind the previous partition's, triggers 512 |
| `QuickSort.SortedRange` | apps/pagerank/pagerank-frompmem.c0:43-102 | Unless the stack overflows, the range is in ascending order, a permutation of itself, and nothing else has changed |
| `QuickSort.SortSucceedsIff` | apps/pagerank/pagerank-frompmem.c0:41-98 | Ranges of n elements are always sorted exactly if 2n is at most the stack array's size; longer ones abort when already in ascending order |
| `QuickSort.SortOverflows` | apps/pagerank/pagerank-frompmem.c0:86-98 | A strictly ascending range of more than half the stack's size makes the program abort |
| `QuickSort.SplitIsLighter` | apps/pagerank/pagerank-frompmem.c0:60-95 | A pending range of length n weighs 2n+1, and every round makes the stack lighter |
| `QuickSort.Sort` | apps/pagerank/pagerank-frompmem.c0:43-102 | The loop with its explicit stack array: values in ascending order, a permutation, nothing outside the range changed; up to 5120 entries it never aborts, and longer strictly ascending ranges do |
| `Partition.PartitionedSplits` | apps/pagerank/pagerank-frompmem.c0:67-84 | Smaller entries before the pivot, the others behind it, a permutation of the range |
| `Partition.PartitionedIs` | apps/pagerank/pagerank-frompmem.c0:67-84 | The same in terms of the entries: the last entry comes to the place returned, smaller values before it, none behind it, and nothing outside the range changes |
| `Partition.PartitionRange` | apps/pagerank/pagerank-frompmem.c0:67-84 | The in-place loop with its swaps |
| `TopK.SelectedAreLargest` | apps/pagerank/pagerank-frompmem.c0:105-159 | Selection permutes the range so that none of its last k entries is smaller than one before them |
| `TopK.SelectTopk` | apps/pagerank/pagerank-frompmem.c0:105-159 | The in-place loop with its shrinking range: none of the last k values is smaller than one before it in the range, a permutation, nothing else changed |
| `TopK.TopkIsRight` | apps/pagerank/pagerank-frompmem.c0:200-207 | Selecting and then sorting the last k lists the k largest in order, over a permutation of all indices |
| `TopK.Topk` | apps/pagerank/pagerank-frompmem.c0:161-217 | The program's listing never aborts given at least 100 vertices; it permutes 0 to n-1, and no value is larger than a later one among the last 100 |
| `GraphIndex.BuildGraph` | apps/pagerank/pagerank-stdin2pmem.c0:37-126 | For every vertex, in-degree, offset, and a slice holding the sources of its incoming edges in edge order; the slices total the edge count |
| `GraphIndex.IndexedIsExact` | apps/pagerank/pagerank-stdin2pmem.c0:65-125 | In terms of the edges: cell 3v is the number of edges to v, cell 3v+2 that of edges to vertices below v, and the slice there holds each u as often as there are edges from u to v |
| `GraphIndex.SourcesAre` | apps/pagerank/pagerank-stdin2pmem.c0:115-125 | A vertex occurs among the sources of another as often as there are edges between them |
| `GraphIndex.IndexCoversIff` | apps/pagerank/pagerank-stdin2pmem.c0:97-105 | The slices of the first cnt vertices hold all edges exactly if all destinations are below cnt |
| `GraphIndex.SlicesInOrder` | apps/pagerank/pagerank-stdin2pmem.c0:97-105 | Slices follow each other without overlap |
| `GraphIndex.FilledWithEdge` | apps/pagerank/pagerank-stdin2pmem.c0:115-125 | One edge goes to the next free place of its slice and spoils no other slice |
| `GraphIndex.CountDegrees` | apps/pagerank/pagerank-stdin2pmem.c0:67-82 | In-degrees and out-degrees are exact |
| `EncodingLength.LengthIsExactIff` | src/toolchain/backend/i0/I0Instruction.cpp:894-987 | Encode writes exactly GetLength bytes if and only if every immediate is written in the width the length function assumes |
| `InstructionStream.EncodingRoundTrip` | src/toolchain/backend/i0/I0Instruction.cpp:339-494 | Decoding an instruction's bytes, whatever follows, gives back every encoded field and the number of bytes |
| `InstructionStream.StreamRoundTrip` | src/toolchain/tools/ld0/main.cpp:518-524 | A code stream is uniquely decodable |
| `InstructionStream.SpawnRoundTripIff` | src/toolchain/backend/i0/I0Instruction.cpp:446-467 | SPAWN and SPAWNX can be read back exactly if the modes of operands 1 and 2 have the same lowest bit |
| `InstructionRoundTrip.HeadRoundTrip` | src/toolchain/backend/i0/I0Instruction.cpp:355-490 | The bit-packed leading bytes tell prefix, opcode, attributes, flags and modes |
| `InstructionStream.FieldRoundTrip` | src/toolchain/backend/i0/I0Instruction.cpp:220-335 | Immediates of 1, 4 and 8 bytes, addresses and displacements are read back |
| `InstructionEncoder.EncodeOperand` | src/toolchain/backend/i0/I0Instruction.cpp:220-335 | Writes the operand at the pointer, moves it and touches nothing else: an immediate in 8, 4 or 1 bytes by its conversion attribute, an address in 8, a base with displacement in 12, lowest byte first; aborts exactly for the short address mode, immediates of 128 bits, and immediates of EXIT, NOP and INT |
| `OperandBytes.OperandIs` | src/toolchain/backend/i0/I0Instruction.cpp:220-335 | The bytes of every operand, spelled out, and when there are none |
| `OperandBytes.LengthIs` | src/toolchain/backend/i0/I0Instruction.cpp:134-218 | The length every operand is taken to have, spelled out, and when the length function aborts |
| `OperandBytes.EncodeAbortsIff` | src/toolchain/backend/i0/I0Instruction.cpp:339-494 | Encode aborts exactly if an operand the opcode has cannot be written |
| `OperandBytes.LengthAbortsIff` | src/toolchain/backend/i0/I0Instruction.cpp:894-987 | GetLength aborts exactly if an operand the opcode has cannot be measured |
| `OperandBytes.ValuesAreReadBack` | src/toolchain/backend/i0/I0Instruction.cpp:220-335 | Decoding gives back the whole value of addresses and 64-bit immediates, the low 32 or 8 bits of shorter ones, and displacements |
| `InstructionEncoder.Encode` | src/toolchain/backend/i0/I0Instruction.cpp:339-494 | Writes the encoding and nothing else |
| `InstructionEncoder.EncodeProgram` | src/toolchain/tools/ld0/main.cpp:518-524 | With exact lengths the text is the encodings one after the other, each where the lengths say |
| `InstructionEncoder.PlacedAt` | src/toolchain/tools/ld0/main.cpp:518-524 | The bytes from an instruction's counted offset on are its encoding and those of the instructions behind it |
| `CallingConvention.CallReturns` | src/toolchain/backend/i0/I0CodeGenerator.cpp:824-908 | For every tree of calls: pointers restored, control behind the branch, the result in the caller's variable, nothing else from the caller's frame up changed |
| `CallingConvention.ActivationReturns` | src/toolchain/backend/i0/I0CodeGenerator.cpp:1356-1406 | Every activation returns through the address on its stack top with both pointers restored |
| `CallingConvention.ArgumentsArrive` | src/toolchain/backend/i0/I0CodeGenerator.cpp:861-877 | Argument k is where the callee looks for its parameter k |
| `CallingConvention.StackAtBranch` | src/toolchain/backend/i0/I0CodeGenerator.cpp:824-880 | At the branch the stack holds, from its top on, the return address, a word for the result if any, and the arguments, and nothing above has changed |
| `CallingConvention.PrologueEffect` | src/toolchain/backend/i0/I0CodeGenerator.cpp:58-106 | What the three instructions on entry do |
| `CallingConvention.EpilogueEffect` | src/toolchain/backend/i0/I0CodeGenerator.cpp:1356-1393 | What the instructions of a return do |
| `ParameterSlots.SlotsAgreeIff` | src/toolchain/core/Symbol/SymbolAddressAllocator.cpp:237-278 | Caller offsets and parameter addresses agree on every parameter exactly if all sizes but the last are whole words |
| `ParameterSlots.WordSlots` | src/toolchain/core/Symbol/SymbolAddressAllocator.cpp:237-278 | With words for parameters, argument i is at 8 + result + 8i above the stack top and parameter i at 16 + result + 8i above the frame pointer |
| `ParameterSlots.RunnerArgumentsArrive` | src/toolchain/backend/i0/I0CodeGenerator.cpp:187-256 | The spawner's descending cursor and the start-up stub meet: the new task runs the named function, finds argument i at parameter i, and would return to the exit |
| `ParameterSlots.ArgumentsWritten` | src/toolchain/core/Pass/ILGenerator.cpp:1106-1140 | Each argument lies above those written after it |
| `FrameLayout.SlotsAreDisjoint` | src/toolchain/core/Symbol/SymbolAddressAllocator.cpp:126-209 | Variables of one block, or of a block and one nested in it, never share memory |
| `FrameLayout.SlotsAreInFrame` | src/toolchain/core/Symbol/SymbolAddressAllocator.cpp:126-209 | Every slot is 8-aligned and inside the frame |
| `FrameLayout.PathsFit` | src/toolchain/core/Symbol/SymbolAddressAllocator.cpp:161-208 | No root-to-leaf path takes more than the memory size |
| `FrameLayout.SomePathFills` | src/toolchain/core/Symbol/SymbolAddressAllocator.cpp:161-208 | Some path takes all of it, so the memory size is the maximum |
| `FrameLayout.LayoutAtIsPart` | src/toolchain/core/Symbol/SymbolAddressAllocator.cpp:189-197 | The addresses of a nested block are its part of the whole layout |
| `FrameLayout.AllocateBlock` | src/toolchain/core/Symbol/SymbolAddressAllocator.cpp:126-209 | The recursive allocation with its moving position |
| `CodeAddresses.I0CodeGenerator.Emit` | src/toolchain/backend/i0/I0CodeGenerator.cpp:345-355 | Appends the code and keeps the address counter equal to the total length |
| `CodeAddresses.I0CodeGenerator.VisitLabel` | src/toolchain/backend/i0/I0CodeGenerator.cpp:1453-1459 | A label stands for the instruction emitted next |
| `CodeAddresses.I0CodeGenerator.GenerateComparason` | src/toolchain/backend/i0/I0CodeGenerator.cpp:440-553 | Both internal jumps get, as 64-bit numbers, the addresses of the instructions they name, and nothing else in them changes |
| `CodeAddresses.I0CodeGenerator.ResolveSymbols` | src/toolchain/backend/i0/I0CodeGenerator.cpp:114-137 | Succeeds exactly if every symbol has a non-zero address; then every waiting operand's value is that address and nothing else has changed |
| `CodeAddresses.I0CodeGenerator.TargetsAreRight` | src/toolchain/backend/i0/I0CodeGenerator.cpp:114-137 | After resolution the value of an operand that named a label is, as a number, the text start plus the offset at which the last loop places the instruction the label stands for |
| `CodeAddresses.I0CodeGenerator.TargetsDecode` | src/toolchain/tools/ld0/main.cpp:518-524 | Decoding the finished text at the address a resolved operand holds gives back the instruction emitted next after the label |
| `CodeAddresses.WordAddresses` | src/toolchain/backend/i0/I0CodeGenerator.cpp:130 | The bits stored for an address of 64 bits are the address |
| `CodeAddresses.LengthsAreOffsets` | src/toolchain/tools/ld0/main.cpp:518-524 | Counted lengths are the offsets at which the instructions are placed |
| `CodeAddresses.ShapesHaveLengths` | src/toolchain/backend/i0/I0CodeGenerator.cpp:114-137 | Patching addresses changes no length |
| `LinkNames.LessIff` | src/toolchain/tools/ld0/main.cpp:45-50 | Tables are ordered like dictionaries: the first difference decides |
| `LinkMerge.TagItPool.Pull` | src/toolchain/tools/ld0/main.cpp:59-71 | Takes an entry and puts the table's next one in |
| `LinkMerge.TagItPool.Next` | src/toolchain/tools/ld0/main.cpp:72-83 | All entries with the least name, and what is left comes after it |
| `LinkMerge.TagItPool.AllGroups` | src/toolchain/tools/ld0/main.cpp:301-327 | Groups with strictly increasing names that hold every entry of every table |
| `LinkMerge.OneGroupPerName` | src/toolchain/tools/ld0/main.cpp:72-83 | Every entry is in exactly the group with its name, and once there |
| `LinkSymbols.CheckMergeSymbol` | src/toolchain/tools/ld0/main.cpp:126-152 | Accepts a group exactly if its entries are objects of one type and specifiers, and not a function |
| `LinkSymbols.GroupAgreesIff` | src/toolchain/tools/ld0/main.cpp:126-152 | The check of a group decides whether all files agree on its name |
| `LinkSymbols.MergeFunctions` | src/toolchain/tools/ld0/main.cpp:279-298 | Fails exactly on a function defined twice; otherwise each function has its own file's symbol |
| `LinkSymbols.MergeTables` | src/toolchain/tools/ld0/main.cpp:266-345 | Succeeds exactly on linkable files; then no name of any file is lost and every name that is not a defined function is declared consistently |
| `Linker.RelinkedRefers` | src/toolchain/tools/ld0/main.cpp:154-174 | After relinking, a body refers in the new scope to exactly the names it referred to in its file |
| `Linker.ReferencesResolve` | src/toolchain/tools/ld0/main.cpp:154-183 | Every former file-global reference resolves in the new table to a symbol of the same name |
| `Linker.RelinkBody` | src/toolchain/tools/ld0/main.cpp:160-174 | The nested loops that rewrite references: opcodes, operand counts and every operand stay, except that references to the file's table get the new scope and keep their name and every other field |
| `Linker.MergedCode` | src/toolchain/tools/ld0/main.cpp:154-174 | Every merged function is a function of that name in some file, with the same code but for the scopes of references to that file's table |
| `LinkPurge.PurgeProgram` | src/toolchain/tools/ld0/main.cpp:185-264 | Keeps exactly the functions reachable from main, each once, and exactly their symbols and the data symbols they mention; fails exactly without a main |
| `LinkPurge.PurgeStep` | src/toolchain/tools/ld0/main.cpp:211-250 | Each round keeps one more function or shortens the queue, so the worklist ends although functions are queued repeatedly |
| `LinkPurge.NothingMissing` | src/toolchain/tools/ld0/main.cpp:211-263 | With an empty queue exactly the needed has been kept |
| `Linker.Link` | src/toolchain/tools/ld0/main.cpp:266-350 | Fails exactly on files that are not linkable or lack main; otherwise the result is what main can reach of the merged program, and each of its functions has the code of a function of that name in some file, with only the scopes of references changed |

## Left out

- Shifts, `&&`, `||`, switch, user labels and goto, unary plus, calls, pointers, arrays and structures in the source
  fragment: their lowering is unsupported, order-dependent or not needed by a harder property. The optimizer and the
  linker are modelled for all instructions.
- Floating point: values and pivots are totally ordered, so a negated branch is the branch on the negation.
- The fixed-size name buffer of temporaries, debug output, and the copying of the program by Optimize.
- Symbols, symbol references and scopes are values: that several operands share one reference object, and that
  allocation writes into the symbol objects, is not modelled.
- KMeansDisabled.DisabledIsNearerIff: for points and centroids with coordinates below 2^28 in magnitude; beyond that
  ordinary distances wrap around as well.
- KMeansPrograms.Space.InitRunner: input is a parameter; reading it from a stream or from persistent memory is not modelled.
- The k-means output tasks, the variants without local aggregation, and the barrier of PageRank, which repeats the same
  pattern.
- Sizes N that PSIZE does not divide: the program then loses the points of the last, partial partition.
- GraphIndex.BuildGraph: the reciprocal of the out-degree, which is stored as a double, is not modelled.
- Parsing, type deduction, serialization, file formats, command lines, the DISA backend and the L0 runtime.
- Backend operations that only assert (Not, Mod, Shl, Shr, indirect calls).
- CodeAddresses.I0CodeGenerator.GenerateComparason: operands arrive generated; the extra instruction for the address of a
  local array is not modelled.
- LinkMerge.TagItPool.Pull: the heap inside the priority queue is a list searched for a least element.
- FrameLayout.AllocateBlock: a function's frame is the layout of a scope without symbols of its own whose children are its
  blocks; parameters are in ParameterSlots.
