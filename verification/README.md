# Apex bit-sliced engine: a verified model

Apex evaluates an expression DAG over unsigned 64-bit columns, 64 rows at a time. A block of 64 rows is
transposed into 64 bit-planes, the DAG is compiled into straight-line AArch64 code over those planes, and
the words the code leaves behind are counted or summed. This project models that pipeline from the nodes
to the machine code, the threads and the totals, and proves that it computes what evaluating the
expression on every row and adding up would. It also models four neighbours in the same repository: the
package graph, two pools of virtual machines, and the streaming hash.

The model in a few words:

- A 64-bit word is the set of its 1-bit positions (`words.dfy`), so `and`, `orr`, `bic` are set operations
  and a population count is a cardinality. Values are numbers below 2^64.
- Emitted code runs on a small AArch64 machine (`machine.dfy`). Reading a value at the wrong type or
  memory out of bounds is a fault, and kernels are proved not to fault. Registers, flags and the
  scratchpad hold arbitrary values on entry.
- An expression is a pool of nodes in which operands come first (`ir.dfy`). `Value` and `Holds` are its
  meaning on one row. Their argument `exact` is false for lanes in which the source's SUB comes out one
  too small: every lane but lane 0 of a block.
- Source code that changes things step by step is a class, an in-place array method or a loop here, and
  is proved against a specification function. Threads are step systems whose locked sections are steps.

| file | what it holds |
|---|---|
| `words.dfy`, `machine.dfy`, `ir.dfy`, `circuits.dfy` | words and bits, the machine, expressions and visiting order, bit-plane circuits |
| `bit_slicer.dfy` | the in-place 64 x 64 transpose and `slice_n` |
| `scratchpad.dfy`, `layout.dfy`, `register_cache.dfy` | slots and blocks, field and carry allocation, the register cache |
| `codegen.dfy`, `compiler_driver.dfy` | what is emitted for each node, and the compiler that appends it |
| `kernel_correct.dfy`, `kernel_theorem.dfy`, `compiler.dfy` | effect of each node's code, the invariant between nodes, compiler correctness |
| `scalar_compiler.dfy`, `scalar_engine.dfy`, `comparison_kernel.dfy`, `kogge_stone.dfy` | the row-loop compiler and its mode of the engine, the single-threshold kernel, the GPU prefix adder |
| `table.dfy`, `aggregation.dfy`, `gather.dfy`, `forest.dfy`, `chunk.dfy`, `engine.dfy`, `guarantees.dfy` | rows, totals, gathering, forests, one block, the engine, which expressions it runs |
| `ranges.dfy`, `parallel_runner.dfy`, `parallel_engine.dfy`, `native.dfy`, `thread_pool.dfy`, `pooled_run.dfy` | row ranges, workers, parallel against sequential, pre-sliced input, the worker pool, a run on that pool |
| `end_to_end.dfy` | whole runs stated on the bytes of the rows |
| `policy.dfy` | the sandbox policy as an instance |
| `dep_graph.dfy`, `vm_snapshot_pool.dfy`, `vm_pool.dfy`, `sha256.dfy` | package order and batches, warm pool, dispatcher, hash and keyed hash |

Promises that do not hold as stated, and what holds instead:

- Bit-sliced SUB seeds its carry with 1 instead of all ones. It is exact in lane 0 of a block and one too
  small elsewhere (`Ir.SubLaw`); counts are exact without SUB (`Guarantees.CountsExactly`) and
  `Guarantees.SubMiscounts` gives an expression that is miscounted. The generated GPU kernel has a different
  law: a - b with bit 0 inverted in rows 1 to 63 (`KoggeStone.SubLaw`).
- A kernel is defined exactly when at most six ADD and SUB nodes are listed up to the last one that gets code
  (`Compiler.DefinedExactly`): for a well-typed expression all of them (`Compiler.SixAddersExactly`), for a
  forest all but a skipped root ADD (`Guarantees.ForestSixAdders`).
- Parallel execution equals sequential execution exactly when the expression reads a field or its constant
  total is 0 modulo 2^64 (`ParallelEngine.ParallelAgreesExactly`); `ParallelEngine.OneAboveZeroCounts` is an
  expression on which they differ.
- The scalar compiler has no case for NOT. A NOT takes over the word of the operator listed before it
  (`ScalarCompiler.NotTakesPredecessor`), and the kernel returns what that reading of the expression computes
  (`ScalarCompiler.ScalarReturns`). NOTs at the top of a NOT-free mask are right exactly when their number is
  even (`ScalarCompiler.ScalarMask`); a single one is wrong in every bit (`ScalarCompiler.NotReturnsItsOperand`).
- The header comment of the package graph calls subgraphs independent. The code cuts the install order into
  runs of equal size, so they are independent exactly when the two ends of every resolved dependency stand in
  the same run (`DepGraph.IndependentExactly`). A dependency outside a cycle is at least in the same or an
  earlier batch (`DepGraph.SameOrEarlierBatch`), and `DepGraph.BatchesDepend` is a graph whose batches are not
  independent.
- `pool_size` bounds the warm machines of all runs with at most n reuses exactly when n or `pool_size` is 0
  (`VmSnapshotPool.SizeBoundsWarm`). With n reuses the excess is at most n (`VmSnapshotPool.ExcessIsReuse`), and
  that is reached for every `pool_size` above 0 (`VmSnapshotPool.ExcessReached`).

## Model

| member | source | states |
|---|---|---|
| `EndToEnd.CountComparison` | src/api/engine.cpp:66-468 | for two fields and each of the five comparisons, what execute and execute_parallel return is the number of rows whose eight-byte values at the two offsets compare so |
| `EndToEnd.CountNative` | src/api/engine.cpp:470-636 | the same number on planes sliced beforehand, for execute_native and execute_native_parallel |
| `EndToEnd.CountScalar` | src/api/engine.cpp:245-415 | the same number in the scalar mode |
| `EndToEnd.SumOfTwo` | src/api/engine.cpp:384-413 | for the sum or difference of two fields the result is the sum over all rows modulo 2^64, with the difference one too small outside lane 0 |
| `EndToEnd.SumOfScores` | src/api/engine.cpp:154-185 | for a weighted mask and a two-leaf tree plus a constant the result is the sum of the row scores modulo 2^64, from the bytes of the rows and the constants of the nodes |
| `BitSlicer.MaskIsStriped` | src/compute/bit_slicer.cpp:28-114 | each stage's hexadecimal mask has exactly the columns whose stride bit is 0 |
| `BitSlicer.Stage` | src/compute/bit_slicer.cpp:25-120 | a stage, in place, exchanges the stride bit of the row index with that of the column index, for all six strides |
| `BitSlicer.ExchangePair` | src/compute/bit_slicer.cpp:31-35 | the masked-xor step exchanges one pair of words as the stage demands and touches no other word |
| `BitSlicer.StageComposes` | src/compute/bit_slicer.cpp:124-131 | a stage extends the exchange from all higher index bits to its own bit |
| `BitSlicer.Transpose64x64` | src/compute/bit_slicer.cpp:124-131 | after the six stages bit j of word i is bit i of the original word j |
| `BitSlicer.TransposeTwice` | src/compute/bit_slicer.cpp:124-140 | transposing twice restores the input |
| `BitSlicer.SliceN` | src/compute/bit_slicer_fast.cpp:7-16 | planes below n are the transposed words, the others zero, also when input and output are the same buffer |
| `BitSlicer.SlicedColumn` | src/compute/bit_slicer.cpp:135-140 | slicing a column of values gives plane b whose lane r is bit b of value r |
| `Machine.LogicInstruction` | src/jit/compiler.cpp:562-567 | and, orr, eor, bic and mvn bit by bit, and no other register changes |
| `Machine.ArithmeticInstruction` | src/jit/compiler.cpp:812-814 | add, sub, neg and cmp on the numbers that words stand for |
| `Machine.ShiftInstruction` | src/jit/compiler.cpp:490-492 | lsr, lsl and the mask of the lowest bit |
| `Machine.ConditionInstruction` | src/jit/compiler.cpp:814-825 | the conditions that cset and csel read, as comparisons of the compared numbers |
| `Machine.MemoryInstruction` | src/jit/compiler.cpp:799-804 | word k of an object is at byte 8 k, for all three addressing modes |
| `Ir.NumberMeaning` | include/apex/jit/ir.hpp:16-29 | LOAD, CONST, ADD, SUB and SELECT in arithmetic modulo 2^64, a SUB one too small outside lane 0 |
| `Ir.ComparisonMeaning` | include/apex/jit/ir.hpp:21-25 | each of the five comparisons as an order of two numbers |
| `Ir.LogicMeaning` | include/apex/jit/ir.hpp:26-28 | AND, OR and NOT as truth functions |
| `Ir.KindsAreEnough` | include/apex/jit/ir.hpp:38-41 | every pool with numbers where numbers are read and masks where masks are read is well typed |
| `Ir.ExpressionAnalyzer.Analyze` | src/jit/compiler.cpp:234-304 | the recursive visitor with its visited map appends exactly what the visiting order prescribes |
| `Ir.OrderIsTopological` | src/jit/compiler.cpp:234-304 | for every sharing each reachable node is listed once, after its operands, the root last |
| `Ir.OperandsFirst` | src/jit/compiler.cpp:234-304 | no node twice, and left, right, condition and summed operands of a node before it |
| `Ir.VisitOperands` | src/jit/compiler.cpp:247-290 | operands are visited left, right, condition, and the node is appended behind them |
| `Ir.OrderIsReachable` | src/jit/compiler.cpp:240-244 | only nodes below the root are listed: the list lies in every operand-closed set around it |
| `Ir.SubFreeIsExact` | src/jit/compiler.cpp:506-509 | without SUB all lanes have the promised meaning |
| `Ir.SubLaw` | src/jit/compiler.cpp:506-509 | for any operands, a SUB yields their difference if and only if it sits in lane 0, and one less modulo 2^64 elsewhere; over SUB-free operands that difference is the promised one |
| `Scratchpad.ScratchpadManager.AllocSlot` | src/jit/compiler.cpp:194-202 | returns the first free slot and marks it only, or -1 exactly when none is free |
| `Scratchpad.ScratchpadManager.AllocBlock` | src/jit/compiler.cpp:204-217 | returns the first free 64-aligned block and marks it only, or -1 exactly when none is free |
| `Layout.FieldNamesCover` | src/jit/compiler.cpp:322-333 | every loaded field has an index, indices are distinct, and only loaded fields get one |
| `Layout.FieldNamesGrow` | src/jit/compiler.cpp:322-333 | a LOAD of a new name gets the next index and nothing else changes the list |
| `Layout.BlockFirstFit` | src/jit/compiler.cpp:204-217 | a number operator takes the first free aligned block of 64 slots and no other slot, and fails exactly when there is none |
| `Layout.SlotFirstFit` | src/jit/compiler.cpp:194-202 | a mask operator takes the first free slot, a comparison the first two, and they fail exactly when there are fewer |
| `Layout.AllocAllSound` | src/jit/compiler.cpp:344-372 | slots and aligned blocks are in bounds and pairwise disjoint; all adders have a carry register if and only if there are at most six |
| `Layout.CarriesExactly` | src/jit/compiler.cpp:345-371 | whatever nodes are skipped, every compiled adder has a carry register if and only if at most six adders are listed up to the last compiled one |
| `Layout.AddersCounted` | src/jit/compiler.cpp:365-371 | the number of compiled adders is that of the listed ADD and SUB nodes that are not skipped |
| `Layout.NeededCounted` | src/jit/compiler.cpp:365-371 | the registers needed are as many as the adders in the shortest front part of the list that has every compiled one |
| `CompilerDriver.AssignFields` | src/jit/compiler.cpp:322-333 | the index loop numbers names in the order of their first LOAD |
| `CompilerDriver.AllocateAll` | src/jit/compiler.cpp:344-372 | the allocation loop, with its early returns, yields the specified layout or fails |
| `RegisterCache.AccessValid` | src/jit/compiler.cpp:430-475 | slot_to_reg and reg_to_slot stay mutually inverse under round-robin eviction |
| `RegisterCache.StoreEffect` | src/jit/compiler.cpp:436-456 | a cached store writes its slot, keeps all others, and keeps every mirrored register equal to its slot |
| `RegisterCache.LoadEffect` | src/jit/compiler.cpp:458-476 | a cached load yields the slot's content on hit and miss, changes no slot, and keeps the cache coherent |
| `RegisterCache.DirectStore` | src/jit/compiler.cpp:569-683 | stores that bypass the cache keep it coherent as long as they miss the cached slots |
| `RegisterCache.ScratchpadCache.StoreSlot` | src/jit/compiler.cpp:436-456 | updates the two maps and the eviction index as specified and appends the specified instructions, also after loads of slot -1 |
| `RegisterCache.ScratchpadCache.LoadSlot` | src/jit/compiler.cpp:458-476 | the same for a load, which emits one move on a hit |
| `Circuits.RippleSum` | src/jit/compiler.cpp:562-564 | one full-adder step gives bit k of (a + b + seed) mod 2^64 in all 64 lanes |
| `Circuits.RippleCarry` | src/jit/compiler.cpp:565-567 | and the carries into bit k + 1 |
| `Circuits.CompareStep` | src/jit/compiler.cpp:636-641 | one comparison step extends greater-than and equality by one lower bit |
| `Circuits.BroadcastBit` | src/jit/compiler.cpp:489-493 | shift, mask and negate spread bit k of a constant over all lanes |
| `KernelCorrect.AdderEffect` | src/jit/compiler.cpp:506-571 | the code of an ADD or SUB leaves the planes of its column and keeps every other slot |
| `KernelCorrect.CompareEffect` | src/jit/compiler.cpp:572-655 | the code of a comparison leaves the mask of its kind through the cache, for all five kinds |
| `KernelCorrect.LogicEffect` | src/jit/compiler.cpp:656-666 | the code of AND, OR and NOT leaves the combined mask |
| `KernelCorrect.SelectEffect` | src/jit/compiler.cpp:667-685 | the code of a SELECT leaves the chosen planes, for any mix of field, constant and computed operands |
| `KernelTheorem.AllInit` | src/jit/compiler.cpp:402-420 | the prologue sets every mask slot and equality slot, whatever the scratchpad held |
| `KernelTheorem.NodeStep` | src/jit/compiler.cpp:502-686 | the code of the k-th node keeps the invariant: earlier results in place, later slots initialised, cache coherent and holding masks only |
| `KernelTheorem.MasksUncached` | src/jit/compiler.cpp:569-683 | the blocks that plane stores write are never cached |
| `KernelTheorem.ReturnPlanes` | src/jit/compiler.cpp:693-700 | copying the root's block to slots 0 to 63 delivers it, also when the blocks are the same |
| `KernelTheorem.MaskKernel` | src/jit/compiler.cpp:701-703 | a compiled mask root is returned in x0 |
| `KernelTheorem.PlaneKernel` | src/jit/compiler.cpp:693-700 | a compiled plane root is left in slots 0 to 63 |
| `KernelTheorem.SkippedKernel` | src/jit/compiler.cpp:691-692 | with a skipped root all compiled nodes leave their results in their slots |
| `Compiler.CompiledMask` | src/jit/compiler.cpp:502-707 | for every well-typed expression with at most six adders and any sharing, bit r of the result is the truth of the expression on row r, from any registers and any scratchpad |
| `Compiler.CompiledPlanes` | src/jit/compiler.cpp:502-700 | for plane roots bit r of slot b is bit b of the value on row r |
| `Compiler.CompiledMaskExact` | src/jit/compiler.cpp:502-707 | without SUB the result is the promised truth on all 64 rows |
| `Compiler.CompiledComparison` | src/jit/compiler.cpp:572-655 | over two fields, for each of the five comparisons, bit r of the result compares the two values of row r as numbers |
| `Compiler.CompiledArithmetic` | src/jit/compiler.cpp:506-571 | over two fields lane i of plane b is bit b of the sum or difference on row i modulo 2^64, the difference one too small outside lane 0 |
| `Compiler.CompiledMaximum` | src/jit/compiler.cpp:667-685 | SELECT(l > r, l, r) over two fields leaves the planes of the maximum |
| `Compiler.NoKernelExactly` | src/jit/compiler.cpp:329-364 | there is no kernel exactly with more than 128 loaded fields or a failed allocation |
| `Compiler.DefinedExactly` | src/jit/compiler.cpp:365-371 | for any skipped nodes the kernel runs without reaching an undefined register if and only if at most six ADD and SUB nodes are listed up to the last compiled one |
| `Compiler.SixAddersExactly` | src/jit/compiler.cpp:367-371 | for a well-typed expression that is: at most six ADD and SUB nodes |
| `CompilerDriver.Assemble` | src/jit/compiler.cpp:393-707 | the appending loops, driving the mutable cache instruction by instruction and the unrolled bits piece by piece, produce exactly the specified code |
| `CompilerDriver.CompileExpression` | src/jit/compiler.cpp:307-722 | for every expression, ill-typed ones included, fails exactly when there are too many fields or no room, and otherwise returns the specified layout and instructions |
| `Guarantees.AllocFits` | src/jit/compiler.cpp:186-217 | n nodes never need more than 64 n slots under first fit, so 512 nodes always fit |
| `Guarantees.SmallCompiles` | src/jit/compiler.cpp:329-364 | compilation succeeds for every pool of at most 128 nodes, and of 512 with at most 128 fields |
| `Guarantees.ListCompiles` | src/jit/compiler.cpp:329-364 | however large the pool, that many nodes below the root are enough |
| `ScalarCompiler.AllocateSlots` | src/jit/compiler.cpp:751-757 | first fit on an empty pad gives the operators slots 0, 1, 2, ... |
| `ScalarCompiler.NodesEffect` | src/jit/compiler.cpp:792-833 | after the first k nodes of a row every listed operator's slot and x5 hold the words of the code read as written |
| `ScalarCompiler.WrittenGrows` | src/jit/compiler.cpp:793-833 | nothing is written for leaves and one word for every other node |
| `ScalarCompiler.OperatorIs` | src/jit/compiler.cpp:811-828 | the word of each operator over two numbers, in arithmetic modulo 2^64 and comparisons of numbers |
| `ScalarCompiler.SelectIs` | src/jit/compiler.cpp:821-826 | a SELECT takes its left word exactly when the word of its condition is not zero |
| `ScalarCompiler.NotTakesPredecessor` | src/jit/compiler.cpp:808-832 | a NOT leaves in its slot the word of the operator listed before it, whatever its operand is |
| `ScalarCompiler.ProgramRuns` | src/jit/compiler.cpp:773-844 | the program with its loop test and branches runs the prologue, 64 turns of the body and the exit, and stops behind its last line |
| `ScalarCompiler.ScalarKernel` | src/jit/compiler.cpp:773-844 | it returns the union of the words of rows 0 to 63, each shifted by its row number, from any registers and scratchpad |
| `ScalarCompiler.ScalarReturns` | src/jit/compiler.cpp:724-860 | so does the kernel of every well-typed expression, with NOT and SUB anywhere |
| `ScalarCompiler.RowWordsBit` | src/jit/compiler.cpp:835-837 | bit i of the result is set exactly when some row r has bit i - r set in its word |
| `ScalarCompiler.WrittenTruth` | src/jit/compiler.cpp:792-833 | where no NOT is listed every word written is the exact value or truth of its operator |
| `ScalarCompiler.ScalarMask` | src/jit/compiler.cpp:724-860 | for NOTs on top of a NOT-free mask, SUB included, bit r is the exact truth on row r when their number is even and its negation when it is odd |
| `ScalarCompiler.ScalarComparison` | src/jit/compiler.cpp:811-828 | over two fields, for each of the five comparisons, bit r of the scalar kernel compares the two values of row r as numbers |
| `ScalarCompiler.CompilersAgree` | src/jit/compiler.cpp:724-860 | without SUB and NOT the scalar kernel on raw columns and the bit-sliced kernel on planes return the same word |
| `ScalarCompiler.NotReturnsItsOperand` | src/jit/compiler.cpp:811-828 | on NOT x the scalar kernel returns x, wrong in every bit |
| `ScalarCompiler.CompileScalar` | src/jit/compiler.cpp:735-844 | the emitting loops produce the specified program: prologue, loop test, body, branches and exit |
| `ScalarEngine.GatherFields` | src/api/engine.cpp:248-302 | in the scalar mode every field is gathered and not sliced, by the five-field path where it applies |
| `ScalarEngine.ExecuteScalar` | src/api/engine.cpp:311-415 | for a mask under any number of NOTs the result is, modulo 2^64, the number of rows that satisfy it when the number of NOTs is even, and of the other rows when it is odd |
| `ComparisonKernel.CompileComparison` | src/jit/compiler.cpp:116-170 | the 64 unrolled blocks are the specified code for the threshold |
| `ComparisonKernel.KernelCompares` | src/jit/compiler.cpp:116-170 | for every threshold bit r of the result says whether value r is above it |
| `ComparisonKernel.PaddingNeverMatches` | src/api/engine.cpp:431-440 | zero padding never matches, so the unmasked word counts the real rows |
| `ComparisonKernel.ExecuteComparison` | src/api/engine.cpp:418-442 | for every row count the loop returns the number of rows above the threshold modulo 2^64 |
| `ComparisonKernel.AboveRows` | src/api/engine.cpp:431-440 | that number counts the rows whose value at the offset is above the threshold |
| `KoggeStone.SpanMeaning` | src/api/engine.cpp:768-793 | a span generates a carry at its top bit or passes on one from below |
| `KoggeStone.Combine` | src/api/engine.cpp:768-793 | carries over adjacent spans of bits combine into those of the joined span |
| `KoggeStone.KoggeStoneScan` | src/api/engine.cpp:761-795 | five doubling steps give each of 32 lanes the carry over all lanes up to itself |
| `KoggeStone.CarriesOut` | src/api/engine.cpp:905-912 | with the carry of the lower group all 64 carries are right |
| `KoggeStone.AddPlanes` | src/api/engine.cpp:900-921 | the prefix adder gives the planes of (a + b) mod 2^64 in every row, the same as the ripple adder |
| `KoggeStone.AddLaw` | src/api/engine.cpp:900-921 | bit by bit those planes are (a + b) modulo 2^64 in every row |
| `KoggeStone.SubPlanes` | src/api/engine.cpp:923-947 | what the generated SUB leaves, plane by plane |
| `KoggeStone.SubLaw` | src/api/engine.cpp:923-947 | that is a - b in row 0 and a - b with bit 0 inverted in every other row |
| `Aggregation.CountLanes` | src/api/engine.cpp:393-394 | a population count under the tail mask counts the real rows only |
| `Aggregation.PlanesSum` | src/api/engine.cpp:405-411 | the population counts of 64 planes weighted by 2^i add up to the row values |
| `Aggregation.AggregatePlanes` | src/api/engine.cpp:405-411 | the loop over the planes adds that sum modulo 2^64 |
| `Aggregation.ForestCounted` | src/api/engine.cpp:395-404 | base times rows plus weighted mask counts equals the sum taken row by row |
| `Aggregation.AggregateForest` | src/api/engine.cpp:395-404 | the weighted-count loop returns that sum modulo 2^64 |
| `Gather.GatherField` | src/api/engine.cpp:207-238 | real rows hold their eight-byte loads, the other lanes zero, for any row count |
| `Gather.GatherFive` | src/api/engine.cpp:259-273 | the five-field fast path agrees with gather_field on the real rows |
| `Gather.SliceFields` | src/api/engine.cpp:245-302 | on either path every field's planes are the slicing of a buffer whose real rows are loaded |
| `Table.TotalSplit` | src/api/engine.cpp:384-413 | totals over adjacent row ranges add up |
| `Table.TotalGrows` | src/api/engine.cpp:384-413 | no rows give 0, and each further row adds its contribution, which is its truth for a mask and its value for planes, exact in lane 0 of its block |
| `Table.MaskRows` | src/api/engine.cpp:392-394 | the total of a mask is the number of rows on which it holds |
| `Table.FieldAtOffset` | src/api/engine.cpp:218-233 | a field of a row is the load at row times stride plus offset |
| `Table.ExactTotals` | src/api/engine.cpp:384-413 | without SUB the total of a mask is the number of matching rows and of a plane root the sum of its values |
| `Table.MatchingRows` | src/api/engine.cpp:392-394 | the count of matching rows is the number of rows with the promised truth |
| `Forest.ForestShape` | src/api/engine.cpp:158-166 | a SUM, or a SUM plus a constant, is a forest with those operands and that constant |
| `Forest.LeafOf` | src/api/engine.cpp:167-183 | what an operand adds on a row from its node alone: the weight of a mask that holds, or the constant a SELECT chooses, with the weight in place of a left leaf that is no constant and 0 in place of a right one |
| `Forest.ForestRow` | src/api/engine.cpp:154-185 | the contribution of a row is the constant behind the SUM plus what every operand adds |
| `Forest.ExtractMetadata` | src/api/engine.cpp:154-185 | the metadata loop over the operands of the SUM yields the specified base, deltas and masks |
| `Forest.ForestMeaning` | src/api/engine.cpp:154-185 | on every row base plus the deltas that apply is the constant plus each tree's chosen leaf |
| `Forest.ConstantTree` | src/api/engine.cpp:166-179 | with constant leaves a tree's leaf is the value of its SELECT modulo 2^64 |
| `Chunks.ChunkFieldsOk` | src/api/engine.cpp:259-302 | gathered and sliced buffers are the planes of 64 rows whose padding lanes hold whatever the buffers hold |
| `Chunks.KernelOnChunk` | src/api/engine.cpp:303-308 | the kernel's result on the real rows depends on those rows only: not on padding, registers or scratchpad |
| `Engine.Reduce` | src/api/engine.cpp:392-411 | each of the three aggregations adds the block's part of the total modulo 2^64 |
| `Engine.ProcessChunk` | src/api/engine.cpp:240-309 | gather, slice and call give the right result for the block's rows |
| `Engine.CollectFields` | src/api/engine.cpp:132-152 | descriptors in kernel order, cut after the last field found |
| `Engine.ApexEngine.SetLogic` | src/api/engine.cpp:56-64 | stores field offset, threshold and the kernel for it, or nothing when the schema has no such field |
| `Engine.ApexEngine.SetExpression` | src/api/engine.cpp:66-204 | stores the compiled plan of the expression, one descriptor for each of its fields and the right goal, or leaves the engine alone when there is no kernel |
| `Engine.ApexEngine.Execute` | src/api/engine.cpp:311-443 | for every row count the result is the total over all rows modulo 2^64; without an expression the number of rows above the threshold, and 0 when nothing was set |
| `Engine.ApexEngine.ExecuteVector` | src/api/engine.cpp:638-696 | over the reals, entry g is the contribution of row g as a signed 64-bit number, divided by the precision unless it is a truth value |
| `Engine.VectorRow` | src/api/engine.cpp:666-691 | a mask reports 1 or 0 for every precision; all else reports a number between -2^63 and 2^63, equal to the contribution modulo 2^64, over the precision |
| `Engine.VectorSumsToTotal` | src/api/engine.cpp:638-696 | the per-row results, multiplied back, add up to a number that is what execute returns modulo 2^64 |
| `Guarantees.WellTypedRunnable` | src/api/engine.cpp:66-204 | every well-typed expression with at most six adders meets the requirements of setting and running |
| `Guarantees.ForestRunnable` | src/api/engine.cpp:90-121 | so does every well-typed nonempty forest with at most six adders in its trees, whose SUM, SELECTs and root ADD are skipped by the compiler |
| `Guarantees.ForestKinds` | src/api/engine.cpp:90-110 | a SUM over well-typed masks and SELECTs that nothing else reads is such a forest |
| `Guarantees.ForestSixAdders` | src/jit/compiler.cpp:367-371 | the kernel of a well-typed forest is defined if and only if its trees have at most six ADD and SUB nodes |
| `Guarantees.CountsExactly` | src/api/engine.cpp:384-415 | on a mask root without SUB execute returns exactly the number of rows that satisfy it |
| `Guarantees.ForestTotals` | src/api/engine.cpp:395-404 | a forest's total is the row-by-row sum of the constant and the chosen leaves |
| `Guarantees.SubMiscounts` | src/jit/compiler.cpp:508-508 | 1 - 0 > 0 is counted once per block of 64 rows instead of on every row |
| `ParallelRunner.SplitRows` | src/compute/parallel_runner.cpp:397-417 | for every row and thread count the ranges are consecutive and nonempty, start at multiples of the share rounded down to whole blocks of 64 rows, and cover all rows |
| `Ranges.EveryRowOnce` | src/compute/parallel_runner.cpp:397-417 | every row lies in one range and in no other |
| `ParallelRunner.SliceForWorker` | src/compute/parallel_runner.cpp:195-309 | a worker's gather, with its unrolled fast path and zero padding, has the real rows of every field |
| `ParallelRunner.AggregateUnrolled` | src/compute/parallel_runner.cpp:319-372 | weighted counts taken eight at a time with a tail are the same sum |
| `ParallelRunner.WorkerThread` | src/compute/parallel_runner.cpp:134-382 | the count is the total of the worker's range although its scratchpad is not cleared between blocks, and 0 without fields |
| `Ranges.SumOfParts` | src/compute/parallel_runner.cpp:422-427 | totals of consecutive ranges, each taken modulo 2^64, add up to the whole modulo 2^64 |
| `ParallelRunner.Run` | src/compute/parallel_runner.cpp:386-428 | for every row count, thread count and order of execution the result is the whole total, or 0 without fields |
| `PooledRun.WaitedTotal` | src/compute/parallel_runner.cpp:402-427 | in every interleaving of the shared pool, once wait_all has returned the slots of the call's ranges add up to that result modulo 2^64 |
| `PooledRun.PoolDelivers` | src/compute/parallel_runner.cpp:402-427 | such interleavings exist for a new pool of any size |
| `ParallelEngine.ExecuteParallel` | src/api/engine.cpp:445-468 | the engine's parallel entry returns that result, which is what execute returns if and only if the expression reads a field or its constant total is 0; without an expression it is execute |
| `ParallelEngine.TotalIsConstant` | src/api/engine.cpp:384-413 | an expression that loads no field adds one number per block of 64 rows and another for every other row |
| `ParallelEngine.ParallelAgreesExactly` | src/api/engine.cpp:445-468 | for every expression the engine runs, SUB and forests included, parallel and sequential agree if and only if it reads a field or that total is 0 modulo 2^64 |
| `ParallelEngine.MaskAgreesExactly` | src/api/engine.cpp:445-468 | for a mask without SUB: if and only if it reads a field or is false |
| `ParallelEngine.OneAboveZeroCounts` | src/compute/parallel_runner.cpp:171-177 | 1 > 0 reads no field: execute counts every row, execute_parallel none |
| `ParallelEngine.OneAboveZeroRuns` | src/api/engine.cpp:66-204 | and it can be set and run |
| `Native.SchemaIndices` | src/api/engine.cpp:491-502 | each kernel field is mapped to the first schema field of its name |
| `Native.NativeField` | src/api/engine.cpp:510-516 | planes of a block, read across, are the values of the table they stand for |
| `Native.SlicedRow` | src/api/engine.cpp:510-516 | if lane r of plane i of field k in block b is bit i of that field in row 64 b + r of a table, every row read across is the row of that table |
| `Native.SlicedTotal` | src/api/engine.cpp:510-549 | then the totals are those of that table |
| `Native.ExecuteNative` | src/api/engine.cpp:470-553 | on pre-sliced blocks the result is the total modulo 2^64 over all rows of the table they were sliced from |
| `Native.SplitBlocks` | src/api/engine.cpp:588-589 | block ranges are equal shares, consecutive, and the last thread takes the rest |
| `Native.ExecuteNativeParallel` | src/api/engine.cpp:555-636 | for every thread count and order of the threads the result is that of execute_native |
| `ThreadPool.StepInv` | src/compute/parallel_runner.cpp:50-106 | every step of workers, callers and destructor keeps the pool's invariant |
| `ThreadPool.NeverTwice` | src/compute/parallel_runner.cpp:55-75 | in every interleaving a task is started at most once and every result in a slot is the right one |
| `ThreadPool.FirstComeFirstServed` | src/compute/parallel_runner.cpp:56-88 | in every run tasks wait in the order in which they were enqueued |
| `ThreadPool.WaitedForAll` | src/compute/parallel_runner.cpp:92-95 | when wait_all has returned every task enqueued before the call has run once and left its result |
| `ThreadPool.BlockedForAReason` | src/compute/parallel_runner.cpp:69-95 | a blocked caller of wait_all always has a queued or running task |
| `ThreadPool.ShutdownDrains` | src/compute/parallel_runner.cpp:97-106 | when all workers have exited the queue is empty and every task has its result |
| `ThreadPool.NeverStuck` | src/compute/parallel_runner.cpp:56-90 | while work is outstanding some worker or pending notification can move: no wake-up is lost |
| `ThreadPool.Finishes` | src/compute/parallel_runner.cpp:50-95 | from every reachable state the pool reaches by its own steps, of bounded number, a state where wait_all returns |
| `ThreadPool.SubmitAndWait` | src/compute/parallel_runner.cpp:84-95 | from every reachable running state n tasks can be enqueued and waited for until wait_all returns with all results |
| `ThreadPool.JoinReturns` | src/compute/parallel_runner.cpp:97-106 | from every reachable stopped state the pool drains its queue and lets every worker go, in a bounded number of steps |
| `Policy.Meaning` | src/host/policy_engine.cpp:34-54 | the policy DAG holds on a row exactly when the preinstall flag is 1 and one of the two violations applies with its flag 1 |
| `Policy.ViolatingRecords` | src/host/policy_engine.cpp:199-201 | the violations are the records of an open with the sensitive flag or a connect with the unauthorised flag, both with the preinstall flag |
| `Policy.BinaryFlagsAgree` | src/host/policy_engine.cpp:199-201 | for flags 0 and 1 counting flags equal to 1 counts the records that violate the policy |
| `Policy.PolicyEngine.EvaluateBatch` | src/host/policy_engine.cpp:256-264 | the batch count is the number of violating records, for every batch of records as process_event makes them |
| `DepGraph.Dfs.Find` | src/host/dep_graph.cpp:103-110 | a dependency resolves to the first key, in iteration order, whose package has that name, and to none exactly when no package has it |
| `DepGraph.EdgeBy` | src/host/dep_graph.cpp:103-110 | that key is an edge of the graph |
| `DepGraph.EdgeFrom` | src/host/dep_graph.cpp:103-110 | and every edge comes from such a name |
| `DepGraph.Dfs.TopoVisit` | src/host/dep_graph.cpp:93-117 | terminates on every graph, extends the list as specified, and lists exactly the untouched packages that untouched ones lead to from the given one, each once and behind dependencies that cannot reach it |
| `DepGraph.TopologicalOrder` | src/host/dep_graph.cpp:119-135 | the specified install order: every package exactly once, and each dependency before its dependent unless it reaches it |
| `DepGraph.ListedBefore` | src/host/dep_graph.cpp:93-135 | without cycles the first package of every dependency name stands before the dependent |
| `DepGraph.DependenciesInOrder` | src/host/dep_graph.cpp:103-116 | dependencies are visited in the order in which a package lists them |
| `DepGraph.KeysInOrder` | src/host/dep_graph.cpp:124-128 | packages are visited in the iteration order of the table |
| `DepGraph.CutIntoRuns` | src/host/dep_graph.cpp:148-158 | the batches concatenate to the order; all but the last have the same size |
| `DepGraph.PerVmIsLeast` | src/host/dep_graph.cpp:146-146 | the batch size is the least of which max_vms batches hold all packages |
| `DepGraph.NeverTooMany` | src/host/dep_graph.cpp:145-164 | cutting never makes more batches than machines, so the merge loop has nothing to do |
| `DepGraph.MergeDown` | src/host/dep_graph.cpp:160-165 | merging keeps the concatenation and ends with at most the allowed number of batches |
| `DepGraph.ExtractParallelSubgraphs` | src/host/dep_graph.cpp:137-168 | at most max_vms batches of rounded-up size that concatenate to the install order, independent if and only if no dependency spans two runs of it |
| `DepGraph.SameOrEarlierBatch` | src/host/dep_graph.cpp:137-168 | a dependency outside a cycle with its dependent lies in the same or an earlier batch |
| `DepGraph.BatchAt` | src/host/dep_graph.cpp:145-158 | place k of the order is package k % n of batch k / n, for runs of n |
| `DepGraph.IndependentExactly` | src/host/dep_graph.hpp:22-24 | no dependency crosses batches if and only if the places of the two ends of each, divided by the batch size, are equal |
| `DepGraph.BatchesDepend` | src/host/dep_graph.hpp:22-24 | batches are not independent: two packages, one depending on the other, go to two machines |
| `VmSnapshotPool.EveryRun` | src/host/vm_snapshot_pool.cpp:28-86 | in every interleaving each machine is warm, held, discarded or about to be pushed, never two of these, and warm, held and booting ones number at most pool_size plus the peak of held ones |
| `VmSnapshotPool.Conserved` | src/host/vm_snapshot_pool.cpp:50-86 | the four places always add up to the ids given out |
| `VmSnapshotPool.ExcessIsReuse` | src/host/vm_snapshot_pool.cpp:28-86 | in every run warm and booting machines exceed pool_size by at most the number of releases with reuse |
| `VmSnapshotPool.ExcessReached` | src/host/vm_snapshot_pool.cpp:78-86 | for every pool_size above 0 and every n a run with n reuses ends with pool_size + n warm machines |
| `VmSnapshotPool.SizeBoundsWarm` | src/host/vm_snapshot_pool.cpp:50-86 | pool_size bounds the warm machines of all runs with at most n reuses if and only if n or pool_size is 0 |
| `VmSnapshotPool.LastComeFirstServed` | src/host/vm_snapshot_pool.cpp:63-76 | get_warm_vm hands out the machine that came last and changes nothing else |
| `VmSnapshotPool.NoNewMachines` | src/host/vm_snapshot_pool.cpp:50-61 | after the shutdown no step makes a machine |
| `VmSnapshotPool.ShutdownStops` | src/host/vm_snapshot_pool.cpp:16-48 | after it at most two own steps of the replenishing thread lead to its end |
| `VmPool.EveryRun` | src/host/vm_pool.cpp:23-84 | in every interleaving at most max_vms workers are active, none starts beyond the dispatcher's index, and no index reports twice |
| `VmPool.TrueIffNoFailure` | src/host/vm_pool.cpp:61-83 | the call returns true if and only if no machine failed to start |
| `VmPool.TrueMeansAllInstalled` | src/host/vm_pool.cpp:55-83 | when it returns true every subgraph has reported success exactly once with all its packages in order |
| `VmPool.FailureIsReported` | src/host/vm_pool.cpp:61-83 | when it returns false a failure has been reported |
| `VmPool.NeverStuck` | src/host/vm_pool.cpp:32-81 | until the call has returned some step is possible |
| `VmPool.RunsEnd` | src/host/vm_pool.cpp:32-81 | no interleaving has more than 7 steps per subgraph and two more |
| `VmPool.InstallReturns` | src/host/vm_pool.cpp:23-84 | every run goes on until install_parallel has returned |
| `VmPool.AllMayStart` | src/host/vm_pool.cpp:23-84 | there is a run in which every machine starts; it returns true with one report per subgraph and all its packages |
| `VmPool.AnyMayFail` | src/host/vm_pool.cpp:23-84 | for every machine there is a run in which it fails; it returns false, reports that failure and starts nothing behind it |
| `Sha256.PadZerosIsLeast` | common/crypto.h:48-57 | the zero bytes written are the fewest that leave the length at the end of a block, as section 5.1.1 of FIPS 180-4 asks |
| `Sha256.PaddedBytes` | common/crypto.h:47-67 | the padded message byte by byte: message, 0x80, fewer than 64 zeros, and the bit length in eight bytes, most significant first |
| `Sha256.Hasher.Update` | common/crypto.h:35-45 | however a message is cut into calls the object stands for all bytes so far |
| `Sha256.Hasher.Final` | common/crypto.h:47-80 | the digest is that of the fold of the compression function over the padded message, for every length |
| `Sha256.HashChain` | common/crypto.h:35-80 | the digest is the last of the chaining values that start at the initial one and take one padded block each, in order |
| `Sha256.WrappedLength` | common/crypto.h:42-67 | the 64-bit counter encodes the true bit length modulo 2^64 |
| `Sha256.Output` | common/crypto.h:70-79 | the digest is the eight words, most significant byte first |
| `Sha256.DigestWord` | common/crypto.h:70-79 | the four bytes of each word by division |
| `Sha256.HmacSha256` | common/crypto.h:137-171 | for every key length and text the result is the construction of section 2 of RFC 2104 over that hash, with its key block and both pad blocks given bit by bit |
| `Sha256.XorBit` | common/crypto.h:156-159 | exclusive or, bit by bit |
| `Sha256.HmacPads` | common/crypto.h:137-171 | the key, or its hash when it is longer than 64 bytes, filled with zeros; its bits inverted where 0x36 has ones in front of the text inside, and where 0x5c has ones in front of the inner hash outside |

## Left out

- Instructions: `emit_mov_imm64` is one instruction here and a post-indexed load is two; prologue and epilogue saves, encoding limits of offsets and AsmJit errors are not modelled.
- Engine.ApexEngine.SetExpression: covers the bit-sliced mode, the scalar mode being `ScalarEngine.ExecuteScalar`, and requires operands of the right kind and a schema that has every loaded field, because the kernel reads memory the source does not define or dereferences a null plane pointer otherwise; the conditions on the expression alone are in `Guarantees.WellTypedRunnable` and `Guarantees.ForestRunnable`.
- A bare LOAD or CONST as root, and a SUM without operands, leave nothing for the aggregation to read and are not covered by `Guarantees.WellTypedRunnable` and `Guarantees.ForestRunnable`.
- Node kinds MUL, LSL, LSR, POPCNT and INFERENCE_COUNT emit no code and have no meaning here; a SUM has one only at the root of a forest.
- `active_bits` is 64, as `set_expression` fixes it; narrower slicing is covered only by `BitSlicer.SliceN`.
- Forest constants and deltas are unbounded integers; sums are taken modulo 2^64 when they are stored, as the 64-bit additions do.
- Engine.ApexEngine.ExecuteVector: divides real numbers, because floating-point rounding is not modelled, and requires a precision other than 0.
- ParallelRunner.Run: its workers run one after another in an arbitrary order, because a worker shares nothing with another one; their interleaving on the pool is in `PooledRun.WaitedTotal`.
- ParallelRunner.WorkerThread: at most 32 fields, the size of its buffer array; with more, the source reads null plane pointers.
- Native.ExecuteNative: at most eight fields, the size of its pointer array.
- ScalarCompiler.ScalarReturns: at most 32768 listed nodes, beyond which the source silently drops results; its immediate slot offsets end earlier, at slot 4095, and that encoding limit is not modelled.
- ScalarEngine.ExecuteScalar: mask roots only, because for others execute aggregates slots in which a scalar kernel leaves words of one row and no planes; at most 128 fields, the size of the engine's buffer array, and a schema that has all of them.
- ScalarCompiler.ScalarMask: the same limit; for a NOT below another operator `ScalarCompiler.ScalarReturns` says what is returned, and whether that is the truth depends on the data.
- Memory: allocation failure, prefetching, cycle counters and weak memory order.
- Schemas: one schema per engine; the maps from schema names to logic, the cut of field names at 63 characters and the registry are not modelled.
- The rest of the Metal path: tail masking, dispatch and reduction on the device.
- `run_with_stats`, the C, Java and Python bindings, and the node builders.
- Lockfile parsing, the process table and string matching of the policy engine, virtual machine control and everything that is input or output.
- VmSnapshotPool.EveryRun: says nothing about which waiting thread a notification reaches.
- Compression of the hash: it is an arbitrary function; the source's table lists 56 of the 64 constants of section 4.2.2 of FIPS 180-4.
