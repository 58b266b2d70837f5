# Multimesh graph partitioning and pipeline scheduling

These modules model the part of the multimesh compiler that turns one dataflow computation with a
microbatch loop into an ordered list of tasks on device submeshes, and prove what the passes promise
each other. Check everything with `dafny verify dfyconfig.toml`.

A computation is a finite list (or map) of instructions with operands. What instructions compute is a
parameter of every statement about meaning, so those statements hold for all interpretations. Loops
that update variables are methods with loops, C++ classes that update their fields are classes, and
each is proved against a specification about which the lemmas then speak. Ghost parameters such as
`rank`, `sem` and `values` name a witness that the caller knows: an acyclic computation has a rank, and
every interpretation has values.

## Modules

- Schedules of the unrolled loop: `LoopTasks`, `Wavefront`, `WavefrontProperties`, `LoopScheduler`,
  `ZeroBubble`, `CustomSchedule`, `ScheduleLoops`, and `ControlEdges` for the dependencies that pin them.
- Unrolling the loop itself: `LoopUnroll`.
- Partitioning that keeps the meaning: `ColorDfs`, `TaskGrouping`, `TaskCalls`, `GroupMeaning` (cutting a
  computation into tasks), `CallGraph`, `CallFusion`, `FusionRewrite`, `FusionMeaning`, `FusionCycles`
  (fusing calls), `ArgumentRecompute` and `ReduceHoist`.
- Sharding arithmetic: `MixedRadix`, `DeviceSharding`, `AxisAssignment`.
- Buffers: `BufferPools`, `BufferLiveness`, `BufferNaming`, `BufferShapes`, `BufferClash`,
  `AliasMatching`.
- Colors and the final list: `ColorVote`, `Coloring`, `TaskList`.
- Shared: `Wrappers`, `Arithmetic`, `Sequences`.

## Where the code does less than it says

- The wavefront schedule drops microbatches when the delay between minibatches is smaller than both the
  minibatch size and the number of microbatches; `WavefrontProperties.CompleteIff` is the exact condition.
- The zero-bubble schedule indexes past the tasks unless the number of microbatches is a multiple of the
  number of groups (`ZeroBubble.ScheduleZeroBubble`), and lets a later minibatch overtake an earlier one
  when the delay is too small (`ZeroBubble.KeepsProductOrderIff`, `ZeroBubble.LateMinibatch`).
- The comment on the custom schedule says that each task is scheduled once per microbatch. Entries are only
  counted by name, so pairs can repeat one iteration and omit another (`CustomSchedule.PairsMayRepeat`).
  Names match as substrings of colors, so a name can also catch another task, and a task without a
  name is dropped; `CustomSchedule.CustomCompleteIff` is the exact condition for all accepted schedules. On the Python side the
  numbered schedule replaces the given one, so a second call with another number of microbatches skips the
  row-by-row count (multimesh/jax/task.py:1050-1069).
- Fusing two calls of one task makes the outputs of the earlier call read the results of the later one,
  because clones are keyed by instructions of the task (`FusionCycles.RerunTaskLosesOutput`);
  `FusionMeaning.FusionPreservesMeaningIff` is the exact condition.
- Listing all users of a custom call together is called safe (src/pjrt_client/color_dfs.cc:65). It is, when
  the call is only read through get-tuple-element (`ColorDfs.ColorSortedPostorder`). It is not on any computation
  in which a reader of the call needs an element of it through another instruction (`ColorDfs.ReaderIsMisplaced`,
  `ColorDfs.SortMixedReaders`).
- The topological index is called well ordered (src/pjrt_client/mpmd_coloring.cc:236). Its distances can be
  equal, and then the order of the operands decides (`ColorVote.TopologicalTie`);
  `ColorVote.SameInEveryOrderIff` is the exact condition.
- Hoisting all-reduces does not look whether all summands of an output are reduced;
  `ReduceHoist.AlwaysSameIff` says when that is harmless.
- Buffer naming counts an operand that a call reads twice as two users, so it can release the buffer while a user
  is still to come, and another temporary then takes it (`BufferClash.NameEarly`);
  `BufferLiveness.HeldWhileLiveIff` is the exact condition.

## Model

| member | source | states |
|---|---|---|
| `Wavefront.ScheduleWavefront` | src/pjrt_client/loop_scheduler.cc:309-329 | Appends to the prefix exactly the reached tasks, wavefront by wavefront with the last stage first, including the truncating division for negative ticks |
| `WavefrontProperties.OrderIsUnique` | src/pjrt_client/loop_scheduler.cc:309-329 | There is only one such order, so the specification of the loop leaves no freedom |
| `WavefrontProperties.OrderIsDistinct` | src/pjrt_client/loop_scheduler.cc:309-329 | No (microbatch, stage) is emitted twice |
| `WavefrontProperties.CompleteIff` | src/pjrt_client/loop_scheduler.cc:284-329 | Every task is emitted if and only if the delay between minibatches is at least min(minibatch size, number of microbatches) |
| `WavefrontProperties.LinearExtension` | src/pjrt_client/loop_scheduler.cc:309-329 | A task never comes before one that precedes it in both microbatch and stage |
| `WavefrontProperties.SameWavefrontIncomparable` | src/pjrt_client/loop_scheduler.cc:309-329 | Tasks of one wavefront never depend on one another |
| `WavefrontProperties.MemoryBound` | src/pjrt_client/loop_scheduler.cc:309-329 | After every prefix of the schedule at most ceil((S-1)/p) * min(g,p) microbatches have entered the pipeline without leaving it, however many there are |
| `LoopTasks.CountGroups` | src/pjrt_client/loop_scheduler.cc:267-282 | The number of pipeline tasks is the number of columns whose devices are smaller than the machine, and the number of groups that of their distinct submeshes (one if there are none) |
| `LoopScheduler.GetIndicesToUnroll` | src/pjrt_client/loop_scheduler.cc:17-34 | Finds exactly the loop-increment columns |
| `LoopScheduler.UnrollLoopIncrementTasks` | src/pjrt_client/loop_scheduler.cc:36-65 | Runs all iterations of every loop increment first, iterations ascending, and leaves the other columns of every iteration in order |
| `LoopScheduler.ScheduleGpipe` | src/pjrt_client/loop_scheduler.cc:333-345 | Emits every task, column by column |
| `LoopScheduler.ColumnMajorIsSound` | src/pjrt_client/loop_scheduler.cc:333-345 | A fill-drain schedule has no repetition and extends the product order |
| `LoopScheduler.ScheduleWavefront` | src/pjrt_client/loop_scheduler.cc:250-331 | Derives the minibatch size from the submeshes and the delay d from num_stages or, when that is unset, from the number c of calls on proper submeshes, with c <= 2 * d and d = 1 or 2 * d <= c + 1; fails exactly when the schedule does not have one row |
| `LoopScheduler.LiftedOrder` | src/pjrt_client/loop_scheduler.cc:458-474 | Increments first, then the wavefront of the other columns: still duplicate-free, and every dependency kept |
| `LoopScheduler.LiftedComplete` | src/pjrt_client/loop_scheduler.cc:458-474 | The combined schedule is complete if and only if the delay suffices for the remaining columns |
| `LoopScheduler.SchedulePrefetchWavefrontWith` | src/pjrt_client/loop_scheduler.cc:458-474 | Prefetched increments followed by the wavefront of the other columns, with the delay pinned in the same way: duplicate-free, dependency-respecting, complete exactly when the delay suffices |
| `ScheduleLoops.ScheduleWavefrontLoop` | src/pjrt_client/loop_scheduler.cc:476-491 | The wavefront schedule of a loop, also for bodies of one task, is complete if and only if the delay suffices |
| `ScheduleLoops.SchedulePrefetchWavefront` | src/pjrt_client/loop_scheduler.cc:493-515 | The same for the prefetching schedule, whose hoisted columns are found from the colors |
| `ScheduleLoops.ScheduleLoops` | src/pjrt_client/loop_scheduler.cc:517-533 | For every kind but the custom one, no task runs twice; a wavefront schedule contains every task if and only if num_stages, or half the number of calls on proper submeshes, covers min(groups, iterations); which inputs are rejected is known in advance |
| `ScheduleLoops.CoversIff` | src/pjrt_client/loop_scheduler.cc:284-295 | With num_stages set the schedule is complete exactly when num_stages >= min(groups, iterations); without it, exactly when 2 * min(groups, iterations) is at most the number of calls on proper submeshes plus one, or the minimum is at most one |
| `ScheduleLoops.TwoCallsPerSubmeshCover` | src/pjrt_client/loop_scheduler.cc:267-295 | With the default delay, two calls on each proper submesh suffice for a complete schedule |
| `ZeroBubble.CriticalColumns` | src/pjrt_client/loop_scheduler.cc:81-94 | The critical columns, ascending, and for each critical call its column |
| `ZeroBubble.NonCriticalStages` | src/pjrt_client/loop_scheduler.cc:112-130 | Each non-critical column is queued with the column of the critical call it follows |
| `ZeroBubble.PushNonCritical` | src/pjrt_client/loop_scheduler.cc:132-141 | Non-critical columns follow the critical ones, latest partner first, nothing lost or repeated |
| `ZeroBubble.ReorderColumns` | src/pjrt_client/loop_scheduler.cc:76-141 | The column order of an iteration puts critical calls first and keeps their order |
| `ZeroBubble.FillQueue` | src/pjrt_client/loop_scheduler.cc:162-202 | Queues whole minibatches, also when the last one is only partly filled |
| `ZeroBubble.DrainQueue` | src/pjrt_client/loop_scheduler.cc:213-217 | Pops by wavefront, microbatch, stage; runs out of range if and only if the last minibatch is not full and there are tasks |
| `ZeroBubble.ScheduleZeroBubble` | src/pjrt_client/loop_scheduler.cc:69-248 | The zero-bubble schedule fails exactly when the number of microbatches is not a multiple of the number of groups |
| `ZeroBubble.OriginIsPermutation` | src/pjrt_client/loop_scheduler.cc:162-217 | With full minibatches every task is scheduled exactly once |
| `ZeroBubble.KeepsProductOrderIff` | src/pjrt_client/loop_scheduler.cc:176-217 | The pop order extends the product order if and only if there is one minibatch or the delay is at least the minibatch size minus one |
| `ZeroBubble.WavefrontAscends` | src/pjrt_client/loop_scheduler.cc:176-190 | Tasks of one wavefront are popped with ascending microbatches, and hence with descending stages inside a minibatch |
| `ZeroBubble.ZeroBubbleRespectsBody` | src/pjrt_client/loop_scheduler.cc:76-217 | Dependencies of the body from critical calls, and of a call on its earlier iterations, survive the reordering |
| `ScheduleLoops.WavefrontNeverDeadlocks` | src/pjrt_client/mpmd_loop_unroll.cc:334-350 | Control edges of a wavefront schedule together with the data dependencies have no cycle |
| `ScheduleLoops.ZeroBubbleNeverDeadlocks` | src/pjrt_client/mpmd_loop_unroll.cc:334-350 | Control edges of a zero-bubble schedule with a sufficient delay together with the data dependencies have no cycle |
| `CustomSchedule.CanonicalizeRow` | multimesh/jax/task.py:1056-1068 | A row of names is accepted if and only if each of its names occurs once per microbatch; occurrences are numbered from 0 |
| `CustomSchedule.Canonicalize` | multimesh/jax/task.py:1050-1069 | A schedule of names is accepted if and only if every row is |
| `CustomSchedule.CanonicalMultiplicity` | multimesh/jax/task.py:1056-1063 | A numbered row holds each iteration of a name exactly once |
| `CustomSchedule.CanonicalAscends` | multimesh/jax/task.py:1056-1063 | In a numbered row the iterations of a name ascend |
| `CustomSchedule.NamesOnce` | src/pjrt_client/loop_scheduler.cc:364-379 | A schedule of names that passes both counts has every (iteration, name) once, all of a name in one row |
| `CustomSchedule.CountNames` | src/pjrt_client/loop_scheduler.cc:364-372 | How often each name is scheduled |
| `CustomSchedule.ScheduleCustomSchedule` | src/pjrt_client/loop_scheduler.cc:347-431 | Accepts exactly the schedules whose counts are right, whose names are unambiguous in every iteration and all of whose entries are found; each row then lists the tasks of its entries in order |
| `CustomSchedule.ScheduleCustom` | src/pjrt_client/loop_scheduler.cc:434-456 | Loop increments run first on the first row, followed by the custom rows |
| `CustomSchedule.DistinctMeansOnce` | src/pjrt_client/loop_scheduler.cc:371-379 | Since every name is counted once per iteration, a schedule that repeats no entry omits none |
| `CustomSchedule.CustomCompleteIff` | src/pjrt_client/loop_scheduler.cc:364-431 | The exact condition for every accepted schedule, pairs included: every task runs once if and only if no entry is repeated and every color contains exactly one scheduled name |
| `CustomSchedule.NamedScheduleCompleteIff` | src/pjrt_client/loop_scheduler.cc:364-431 | The same, end to end, for schedules of plain names |
| `CustomSchedule.PairsMayRepeat` | src/pjrt_client/loop_scheduler.cc:364-379 | A schedule of (iteration, name) pairs that repeats one iteration and omits another is accepted |
| `ControlEdges.AddControlDependencies` | src/pjrt_client/mpmd_loop_unroll.cc:334-350 | Links each task to the next one of its row with the same devices, and adds no other link |
| `ControlEdges.ClosureIsScheduleOrder` | src/pjrt_client/mpmd_loop_unroll.cc:334-350 | The transitive closure of the links is the schedule order on each device list |
| `ControlEdges.NoDeadlock` | src/pjrt_client/mpmd_loop_unroll.cc:334-350 | If the schedule extends the data dependencies, paths of control and data edges always go forward |
| `ControlEdges.InversionDeadlocks` | src/pjrt_client/mpmd_loop_unroll.cc:334-350 | If it orders two tasks of one device list against a dependency, there is a cycle |
| `LoopUnroll.OffsetIsLiteral` | src/pjrt_client/mpmd_loop_unroll.cc:285-293 | The literal slice offset of a copy equals the offset that the source loop carries |
| `LoopUnroll.MarkCarried` | src/pjrt_client/mpmd_utils.cc:548-581 | Marks an element exactly when some read of it is not itself what the root returns there |
| `LoopUnroll.ResetAgrees` | src/pjrt_client/mpmd_loop_unroll.cc:196-215 | Every copy sees the current value of each element that the body reads, although unmarked elements come from the loop input: they are returned in place or nobody reads them |
| `LoopUnroll.SameReadsSameValue` | src/pjrt_client/mpmd_loop_unroll.cc:189-307 | What a body computes depends only on the elements it reads |
| `LoopUnroll.ElementStays` | src/pjrt_client/mpmd_loop_unroll.cc:209-214 | An element of the loop state that the body root returns unchanged keeps its input value in every iteration |
| `LoopUnroll.IsNonCritical` | src/pjrt_client/mpmd_loop_unroll.cc:30-49 | True exactly for calls all of whose outputs feed nothing but the root tuple |
| `LoopUnroll.NonCriticalHasNoReaders` | src/pjrt_client/mpmd_loop_unroll.cc:30-49 | No call of the body reads the output of a non-critical call |
| `LoopUnroll.GetClones` | src/pjrt_client/mpmd_loop_unroll.cc:162-170 | Succeeds exactly when all operands were cloned in this iteration, and returns the clones in operand order |
| `LoopUnroll.CloneInstruction` | src/pjrt_client/mpmd_loop_unroll.cc:193-307 | One body instruction in one iteration: its clone denotes the value of the original on the state of that iteration, or the instruction is rejected as unsupported |
| `LoopUnroll.CloneBody` | src/pjrt_client/mpmd_loop_unroll.cc:189-319 | One copy of the body denotes one pass of the loop; it is rejected exactly when the body holds an unsupported instruction |
| `LoopUnroll.Unroll` | src/pjrt_client/mpmd_loop_unroll.cc:147-330 | The tuple that replaces the loop denotes the body applied N times when the marks follow the body, existing instructions are untouched, and the task grid has one row per iteration and one column per call; it fails exactly when the body holds an unsupported instruction |
| `LoopUnroll.UnrollingPreservesMeaning` | src/pjrt_client/mpmd_loop_unroll.cc:187-326 | For every body, input, number of iterations and meaning of the calls, the replacement equals the body applied N times, for any marking that includes the elements marked from the body |
| `ColorDfs.SortOperands` | src/pjrt_client/color_dfs.cc:34-51 | Reorders the operands by descending priority of their colors, colored before uncolored |
| `ColorDfs.ColorSortedPostorder` | src/pjrt_client/color_dfs.cc:12-76 | Ends on every computation, lists the root and keeps sibling elements of a custom call adjacent; when custom calls are read whole or by element, not both, it lists what the root needs (and siblings of needed elements), each once, operands before users; an instruction takes the operands that only it reads the later, the more recently an instruction of their color was visited first, those of its own color last, and uncolored ones before colored ones |
| `ColorDfs.MixedReadersStayApart` | src/pjrt_client/color_dfs.cc:63-69 | If one user of a custom call needs another through an instruction that is not a user, listing the users together cannot be operands-first |
| `ColorDfs.ReaderIsMisplaced` | src/pjrt_client/color_dfs.cc:63-69 | The traversal fails on every computation in which a listed reader of a custom call needs an element of the call through an instruction that does not read the call |
| `ColorDfs.MixedReadersMisplaced` | src/pjrt_client/color_dfs.cc:63-69 | Whatever the traversal returns on a computation with mixed readers is not operands-first |
| `ColorDfs.SortMixedReaders` | src/pjrt_client/color_dfs.cc:12-76 | A run of the traversal on such a computation, with a result that is not operands-first |
| `CallFusion.CollectBoundary` | src/pjrt_client/mpmd_computation_fusion.cc:86-125 | Each operand from outside becomes exactly one parameter; exactly the outputs still read outside, or returned, are exported |
| `CallFusion.BuildFused` | src/pjrt_client/mpmd_computation_fusion.cc:127-197 | The fused computation delivers for each export the value computed by the last listed run of its task |
| `FusionRewrite.Redirect` | src/pjrt_client/mpmd_computation_fusion.cc:199-230 | Readers of each export read the new output instead, everything else is unchanged |
| `FusionRewrite.RemoveCalls` | src/pjrt_client/mpmd_computation_fusion.cc:232-252 | The fused calls and their outputs have no user left and disappear, nothing else does |
| `FusionRewrite.FuseCalls` | src/pjrt_client/mpmd_computation_fusion.cc:39-261 | The whole rewrite; it fails only for an empty list, leaving the computation alone |
| `FusionMeaning.FusedIsValid` | src/pjrt_client/mpmd_computation_fusion.cc:39-261 | The result is a well-formed computation |
| `FusionMeaning.FusionPreservesMeaningIff` | src/pjrt_client/mpmd_computation_fusion.cc:127-230 | Every instruction keeps its value, and new outputs have the values of the exports they replace, if and only if the last run of each needed task computes them |
| `FusionMeaning.FusionPreservesMeaning` | src/pjrt_client/mpmd_computation_fusion.cc:127-230 | This holds under every meaning of the instructions when no needed task runs again on other operands |
| `FusionCycles.AcyclicIffConvex` | src/pjrt_client/mpmd_computation_fusion.cc:39-261 | The fused computation is acyclic if and only if no path leaves the set and returns to it |
| `FusionCycles.RerunTaskLosesOutput` | src/pjrt_client/mpmd_computation_fusion.cc:151-191 | Fusing two calls of one task gives the first result the value of the second: 11 instead of 10 |
| `FusionCycles.TwoRunsAreOrdinary` | src/pjrt_client/mpmd_computation_fusion.cc:73-125 | The computation behind that example is well formed, fusible and evaluated as usual |
| `TaskGrouping.SameTaskIff` | src/pjrt_client/mpmd_computation_grouper.cc:455-472 | Two instructions share a task if and only if no instruction of another color lies between them in the order |
| `TaskGrouping.AddReplicatedOperandDfs` | src/pjrt_client/mpmd_computation_grouper.cc:176-221 | Adds exactly replicated instructions, each after its replicated operands and none twice |
| `TaskGrouping.AddInstruction` | src/pjrt_client/mpmd_computation_grouper.cc:235-244 | The list of a task stays operands-first and ends with the new instruction |
| `TaskGrouping.ReplicaIsNeeded` | src/pjrt_client/mpmd_computation_grouper.cc:176-244 | A task lists a replicated instruction only for one of its own instructions, which reads it directly or through listed replicated ones |
| `TaskGrouping.CutIntoTasks` | src/pjrt_client/mpmd_computation_grouper.cc:417-473 | Cuts the order into runs of one color; fails exactly when an instruction to be recolored has no direct task; so far the roots are exactly the inputs of loops and the recolored outputs that tasks compute |
| `TaskCalls.Build` | src/pjrt_client/mpmd_computation_grouper.cc:344-399 | The body of a task reads values of its own list or parameters; the parameters are operands of its instructions that are always passed or roots of earlier tasks |
| `TaskCalls.ParametersIff` | src/pjrt_client/mpmd_computation_grouper.cc:355-388 | The parameters of a task are exactly the operands of its instructions that it does not list itself |
| `TaskCalls.RootsAreExact` | src/pjrt_client/mpmd_computation_grouper.cc:344-374 | A task returns exactly those of its instructions that the computation returns and those directly included ones that a loop, a recolored output or another task reads |
| `TaskCalls.ReplaceWithCall` | src/pjrt_client/mpmd_computation_grouper.cc:275-342 | The call passes the sources of its parameters and provides its roots in order; a task without roots gets no call |
| `TaskCalls.GroupComputationIntoTasks` | src/pjrt_client/mpmd_computation_grouper.cc:403-506 | All tasks are cut, built and called; a task returns an instruction if and only if it lists it and the computation returns it, or a loop, a recolored output or another task reads it; every value read outside has a known source |
| `GroupMeaning.CallsAreAcyclic` | src/pjrt_client/mpmd_computation_grouper.cc:344-399 | Arguments of a call are outside values or outputs of strictly earlier calls |
| `GroupMeaning.CallMeans` | src/pjrt_client/mpmd_computation_grouper.cc:344-399 | Every instruction listed in a task, replicas included, computes its old value |
| `GroupMeaning.GroupingPreservesMeaning` | src/pjrt_client/mpmd_computation_grouper.cc:403-506 | Whatever replaced an instruction has the value of the instruction |
| `GroupMeaning.ReadersHaveSources` | src/pjrt_client/mpmd_computation_grouper.cc:475-506 | Every instruction computed by a task that is returned, recolored for the root tuple or passed into a loop was replaced by a source |
| `ArgumentRecompute.FindTree` | src/pjrt_client/mpmd_argument_recompute.cc:103-220 | Succeeds if and only if the uncloned part of the operand tree is allowed and its summed cost stays within the cutoff; the tree lists each missing instruction once, operands first |
| `ArgumentRecompute.AffordableIsSmall` | src/pjrt_client/mpmd_argument_recompute.cc:123-205 | What is recomputed is no product, call, loop, foreign parameter or unknown custom call and matches the device count of the consumer; no array computed again, and no operand of a reduce, is larger than the cutoff |
| `ArgumentRecompute.FreeIsAffordable` | src/pjrt_client/mpmd_argument_recompute.cc:141-190 | Trees of constants, broadcasts, reshapes, recolored arguments and tuples with that device count are affordable under any cutoff |
| `ArgumentRecompute.CloneTree` | src/pjrt_client/mpmd_argument_recompute.cc:222-254 | Clones the tree in the color of the consumer; every clone has the opcode and value of its original, keeps a sharding exactly when it is for the device count of the consumer, and old instructions are untouched |
| `ArgumentRecompute.MaybeRecomputeOperandFromArguments` | src/pjrt_client/mpmd_argument_recompute.cc:51-268 | Changes the computation if and only if the operand is not available and can be afforded; a changed operand has the same value and the color of the consumer, an unchanged computation is left exactly as it was |
| `ArgumentRecompute.ValuationIsUnique` | src/pjrt_client/mpmd_argument_recompute.cc:222-267 | The values of a computation are determined by its instructions, so keeping a valuation is keeping the meaning |
| `ReduceHoist.AllReducesAreEquivalent` | src/pjrt_client/mpmd_hoist_shard_map_reduce.cc:49-66 | True exactly when all reduces have the same replica groups |
| `ReduceHoist.VisitLoop` | src/pjrt_client/mpmd_hoist_shard_map_reduce.cc:70-189 | An output is changed if and only if it has reduces with equal groups; its reduces are then dropped from the summands and one is added behind the loop |
| `ReduceHoist.HoistingPreservesIff` | src/pjrt_client/mpmd_hoist_shard_map_reduce.cc:103-175 | For any devices and iterations, reducing once after the loop gives the original result if and only if the accumulated part that was not reduced is invariant under the reduce |
| `ReduceHoist.AlwaysSameIff` | src/pjrt_client/mpmd_hoist_shard_map_reduce.cc:103-175 | It does so on all inputs if and only if every summand was reduced or no group has two devices |
| `ReduceHoist.VisitLoopPreserves` | src/pjrt_client/mpmd_hoist_shard_map_reduce.cc:70-187 | With zero initial accumulators (multimesh/jax/task.py:1116-1119) and all summands of hoisted outputs reduced, every output of the loop keeps its value on each device |
| `MixedRadix.ComputeIndexSet` | src/pjrt_client/mm_sharding.h:63-79 | The loop computes the row-major digits of a position |
| `MixedRadix.ComputeGlobalIndex` | src/pjrt_client/mm_sharding.h:81-91 | The loop computes the row-major position of a multi-index over the leading dimensions it covers |
| `MixedRadix.DecodeEncode` | src/pjrt_client/mm_sharding.h:63-91 | Decoding undoes encoding on the box of the dimensions |
| `MixedRadix.EncodeDecode` | src/pjrt_client/mm_sharding.h:63-91 | Encoding undoes decoding for all positions of the mesh, and decoded indices are in the box |
| `DeviceSharding.MarkUsed` | src/pjrt_client/mm_sharding.cc:190-200 | Which device axes are used, and whether nothing is sharded |
| `DeviceSharding.CollectReplicated` | src/pjrt_client/mm_sharding.cc:211-220 | The unused axes ascending, their total size and the size of the mesh |
| `DeviceSharding.AssignTiles` | src/pjrt_client/mm_sharding.cc:222-234 | Tile counts are the products of the assigned axes, and the permutation lists the axes of each dimension in mesh order |
| `DeviceSharding.NeedsPermutation` | src/pjrt_client/mm_sharding.cc:252-258 | A transposed device order is needed exactly when the permutation is not the identity |
| `DeviceSharding.LogicalToPhysicalSharding` | src/pjrt_client/mm_sharding.cc:183-273 | Replicated exactly for no dimensions, or no sharding on a full mesh; otherwise tiled as specified |
| `DeviceSharding.PermutationOfAxes` | src/pjrt_client/mm_sharding.cc:223-241 | With disjoint axes the device dimensions are permuted: each occurs once |
| `DeviceSharding.TileDimsCoverMesh` | src/pjrt_client/mm_sharding.cc:222-245 | The tile dimensions multiply to the size of the mesh |
| `DeviceSharding.IotaIsBijection` | src/pjrt_client/mm_sharding.cc:260-270 | A transposed iota assigns each device to exactly one position |
| `DeviceSharding.CollapseIsHarmless` | src/pjrt_client/mm_sharding.cc:252-267 | Replacing an identity permutation by one flat dimension gives the same device at every position |
| `DeviceSharding.DeviceOwnsItsTile` | src/pjrt_client/mm_sharding.cc:222-270 | The device with given mesh coordinates is stored at the tile that its coordinates along the assigned axes encode |
| `DeviceSharding.TileHasOneDevice` | src/pjrt_client/mm_sharding.cc:222-270 | Every tile coordinate is owned by exactly one device |
| `DeviceSharding.ReplicatedIffUntiled` | src/pjrt_client/mm_sharding.cc:190-209 | The test for full replication holds if and only if every logical dimension has one tile |
| `DeviceSharding.ReplicatesIff` | src/pjrt_client/mm_sharding.cc:211-269 | The last tile dimension holds replicas if and only if some mesh axis is assigned to no dimension, which is when there is one tile dimension more than the value has |
| `AxisAssignment.AssignAxes` | src/pjrt_client/mpmd_logical_to_gspmd_sharding.cc:32-83 | The nested loops with their running shard counts and used axes compute the rule-by-rule assignment |
| `AxisAssignment.RulesInOrder` | src/pjrt_client/mpmd_logical_to_gspmd_sharding.cc:38-83 | Rules are served in their order: each gives its axis to the first dimension with the logical name for which the axis is free and one more cut fits, and to no other |
| `AxisAssignment.LogicalShardingToOpSharding` | src/pjrt_client/mpmd_logical_to_gspmd_sharding.cc:21-124 | The sharding of a tensor, or the error it ends in |
| `AxisAssignment.ShardingFailsIff` | src/pjrt_client/mpmd_logical_to_gspmd_sharding.cc:46-114 | A sharding is refused if and only if a matching rule names an axis that the mesh does not have, or a dimension is cut into a number of shards that does not divide its extent |
| `AxisAssignment.AssignIsProper` | src/pjrt_client/mpmd_logical_to_gspmd_sharding.cc:38-83 | No device axis goes to two dimensions, and a dimension is cut into no more shards than its extent |
| `AxisAssignment.NothingUsableLeft` | src/pjrt_client/mpmd_logical_to_gspmd_sharding.cc:38-83 | The assignment is greedy to the end: an axis offered to a dimension by some rule is used, or no longer fits |
| `AxisAssignment.AssignFailsIff` | src/pjrt_client/mpmd_logical_to_gspmd_sharding.cc:46-60 | It fails if and only if a matching rule names an axis that the mesh does not have |
| `AxisAssignment.BlocksTile` | src/pjrt_client/mpmd_logical_to_gspmd_sharding.cc:101-114 | Equal blocks tile the tensor exactly: each element lies in one block |
| `AxisAssignment.ElementIsStored` | src/pjrt_client/mpmd_logical_to_gspmd_sharding.cc:21-124 | End to end, each element of the tensor is stored on exactly one device per replica |
| `BufferPools.TakeAtTime` | src/pjrt_client/mpmd_buffer_scheduling_name.cc:33-48 | Takes a buffer with the least available time if one is available, and nothing otherwise |
| `BufferPools.BufferAllocator.AllocateAtTime` | src/pjrt_client/mpmd_buffer_scheduling_name.cc:73-87 | Reissues an available buffer of the same shape, or creates one under the own name |
| `BufferPools.BufferAllocator.FreeAtTime` | src/pjrt_client/mpmd_buffer_scheduling_name.cc:67-71 | Returns a buffer to the pool of its shape and leaves the other pools alone |
| `BufferLiveness.NameIsUnused` | src/pjrt_client/mpmd_buffer_scheduling_name.cc:143-153 | A name given to an output is held by no temporary and has the right shape |
| `BufferLiveness.NamesKeepsInvariant` | src/pjrt_client/mpmd_buffer_scheduling_name.cc:143-153 | Naming keeps the invariant that each created buffer is either free in one pool or held by one temporary |
| `BufferLiveness.VisitsKeepsInvariant` | src/pjrt_client/mpmd_buffer_scheduling_name.cc:114-124 | So does visiting an operand, which frees it at its last user |
| `BufferLiveness.HeldIffLive` | src/pjrt_client/mpmd_buffer_scheduling_name.cc:109-155 | When nothing was released early, a named temporary holds its buffer exactly while it has a user to come |
| `BufferLiveness.LiveNeverShare` | src/pjrt_client/mpmd_buffer_scheduling_name.cc:94-229 | When nothing was released early, two temporaries that still have users never share a name |
| `BufferShapes.SharersAgree` | src/pjrt_client/mpmd_buffer_scheduling_name.cc:143-149 | Two temporaries of a run that get one name, at the same time or one after the other, have equal layouts and are made on meshes of equal device lists |
| `BufferLiveness.NamesKeepsPeak` | src/pjrt_client/mpmd_buffer_scheduling_name.cc:143-153 | The buffers created of a shape are at least the peak of those held, and no more when waiting buffers are available |
| `BufferLiveness.HeldWhileLiveIff` | src/pjrt_client/mpmd_buffer_scheduling_name.cc:109-126 | The exact condition: at every point of a run named temporaries are held exactly while live if and only if no temporary is read as often as it has users before its last user |
| `BufferLiveness.ReadOnceIsTimely` | src/pjrt_client/mpmd_buffer_scheduling_name.cc:109-126 | Calls with distinct operands always meet that condition |
| `BufferClash.RepeatedOperandClashes` | src/pjrt_client/mpmd_buffer_scheduling_name.cc:109-198 | On a walk with a repeated operand every run gives two live temporaries one name |
| `BufferClash.NameEarly` | src/pjrt_client/mpmd_buffer_scheduling_name.cc:94-229 | The pass accepts that walk and returns the two equal names |
| `BufferNaming.VisitOutput` | src/pjrt_client/mpmd_buffer_scheduling_name.cc:128-155 | Keeps names given by earlier passes, lets root outputs keep their own name, and otherwise allocates |
| `BufferNaming.FreeOperand` | src/pjrt_client/mpmd_buffer_scheduling_name.cc:109-126 | Fails exactly for an unnamed output, and otherwise counts the visit and frees at the last one |
| `BufferNaming.OutputsAvoidOperands` | src/pjrt_client/mpmd_buffer_scheduling_name.cc:183-194 | When nothing was released early, outputs of a call do not take the buffers of its own operands, so no visit is skipped |
| `BufferNaming.VisitCall` | src/pjrt_client/mpmd_buffer_scheduling_name.cc:166-198 | One call: starts when operands and mesh are ready, names its outputs in turn, then visits its operands in turn, skipping those whose name an output has |
| `BufferNaming.VisitReshard` | src/pjrt_client/mpmd_buffer_scheduling_name.cc:199-224 | One transfer: names its output when the operand is ready, releases the operand two time units later |
| `BufferNaming.Run` | src/pjrt_client/mpmd_buffer_scheduling_name.cc:94-229 | A run of the transition relation from the start, for calls with any operands; buffers are held exactly while needed if and only if no value is read too often before its last user, and then live temporaries have distinct buffers at every point; it succeeds on complete computations; with one mesh and no transfer it creates exactly the peak number of buffers of each shape |
| `AliasMatching.CollectDonors` | src/pjrt_client/mpmd_input_output_buffer_alias.cc:42-72 | The donors of one kind by size, or the error for a tuple parameter |
| `AliasMatching.MatchIsMatching` | src/pjrt_client/mpmd_input_output_buffer_alias.cc:104-140 | Pairs have equal size and nobody is used twice |
| `AliasMatching.MatchIsMaximum` | src/pjrt_client/mpmd_input_output_buffer_alias.cc:104-140 | For every size the number of pairs is the minimum of the donor and donee counts |
| `AliasMatching.MatchIsBest` | src/pjrt_client/mpmd_input_output_buffer_alias.cc:104-140 | No other matching has more pairs of any size |
| `AliasMatching.Build` | src/pjrt_client/mpmd_input_output_buffer_alias.cc:25-143 | Adds exactly these pairs to the configuration and removes the donors |
| `AliasMatching.BuildSaturates` | src/pjrt_client/mpmd_input_output_buffer_alias.cc:25-143 | Afterwards no donor and donee of equal size and the same kind are left over |
| `AliasMatching.FindDonor` | src/pjrt_client/mpmd_input_output_buffer_alias.cc:180-199 | Finds a qualifying parameter that feeds the output in the fewest steps; if the search below the output fits the visit limit, it finds none only when there is none |
| `AliasMatching.FindBestMatch` | src/pjrt_client/mpmd_input_output_buffer_alias.cc:145-200 | Adds at most one pair, of an output with a parameter of its shape that feeds it, in the fewest steps; an output that is a donor itself is paired with itself; within the visit limit it adds nothing only when nothing qualifies |
| `AliasMatching.Run` | src/pjrt_client/mpmd_input_output_buffer_alias.cc:202-248 | All passes together: outputs in order are served by the search, each with what earlier aliases and outputs leave; the other new aliases pair a parameter and an output of one kind and shard size that the search left over, and nothing matchable by size remains; the flag tells whether such a pair was added; fails exactly for a tuple parameter of a module that is not dynamic, or one that is the only parameter beside an output to be served |
| `AliasMatching.OwnParameterIsKept` | src/pjrt_client/mpmd_input_output_buffer_alias.cc:145-178 | An output that is no temporary, has no earlier alias and is itself a donor parameter that nothing before it took is aliased with itself |
| `AliasMatching.ServedIff` | src/pjrt_client/mpmd_input_output_buffer_alias.cc:145-231 | Such an output, when the search below it fits the visit limit, gets an alias in the search if and only if a donor of its shape that feeds it was not taken by an earlier alias or an earlier output, and the alias is with such a donor |
| `ColorVote.BetterIff` | src/pjrt_client/mpmd_coloring.cc:204-261 | Colors are compared lexicographically: by weight, depth, topological distance; by depth, weight, topological distance; or by topological distance alone |
| `ColorVote.ChooseColor` | src/pjrt_client/mpmd_coloring.cc:170-261 | The one-pass running choice is the leader of the votes in their order, and has the best final totals |
| `ColorVote.OrderIsIrrelevant` | src/pjrt_client/mpmd_coloring.cc:204-261 | Any two winners tie on everything the priority looks at; by weight or depth they tie on all totals |
| `ColorVote.SameInEveryOrderIff` | src/pjrt_client/mpmd_coloring.cc:204-261 | The exact condition: all orders of the votes choose one color if and only if exactly one voted color is best |
| `ColorVote.TopologicalTie` | src/pjrt_client/mpmd_coloring.cc:235-240 | Two votes at equal distance: each order of the votes chooses another color, while the weight decides the same way in both |
| `Coloring.Propagation.ColorTuple` | src/pjrt_client/mpmd_instruction.cc:103-127 | A tuple takes the color of its operands when they agree, and nothing changes otherwise |
| `Coloring.Propagation.CollectVotes` | src/pjrt_client/mpmd_coloring.cc:186-203 | The votes of the visited operands and users, seen through aliases |
| `Coloring.VotedIff` | src/pjrt_client/mpmd_coloring.cc:186-203 | A color has votes if and only if a visited neighbour has it, or is a broadcast whose operand has it |
| `Coloring.WeightIsSize` | src/pjrt_client/mpmd_coloring.cc:193-206 | The weight of a color is the total size of those who speak for it |
| `Coloring.DistancesAreLeast` | src/pjrt_client/mpmd_coloring.cc:195-213 | The distances of a color are the least ones in depth and in topological order to those who speak for it |
| `Coloring.Propagation.PropagateFromUsersAndOperands` | src/pjrt_client/mpmd_coloring.cc:158-276 | Colors an instruction and its uncolored aliases, and nothing else, if and only if somebody votes, with the leader of the votes |
| `Coloring.Propagation.PropagateIf` | src/pjrt_client/mpmd_coloring.cc:297-333 | Ends, because each pass that is repeated leaves fewer uncolored instructions, and reaches a fixpoint; the result is that of passes which visit the instructions in order, each by one vote, one look at the operands of a tuple, or a run of the body of a loop |
| `Coloring.RunTrace` | src/pjrt_client/mpmd_coloring.cc:297-333 | Every run is a sequence of single steps, each of which colors one instruction with its uncolored aliases, or one tuple |
| `Coloring.ColorsAreExplained` | src/pjrt_client/mpmd_coloring.cc:262-333 | Every color that a run adds to an instruction was won by a vote at some point of the run, by the instruction or by one that it is an alias of, or is the common color of the operands of a tuple at that point |
| `TaskList.MpmdScheduler.AddStore` | src/pjrt_client/mpmd_partition.cc:250-323 | Fails exactly for uncolored values that are no parameters; a temporary gets the next index, a fixed store keeps an earlier entry |
| `TaskList.MpmdScheduler.AssignFixedStores` | src/pjrt_client/mpmd_partition.cc:675-689 | Parameters and root values are stored under their own indices |
| `TaskList.RootIndexIff` | src/pjrt_client/mpmd_partition.cc:642-669 | The index of a root value is its position among the operands of the root |
| `TaskList.MpmdScheduler.AssignTemporaries` | src/pjrt_client/mpmd_partition.cc:700-709 | Each remaining buffer name gets one temporary index, and each index one name |
| `TaskList.MpmdScheduler.Temporaries` | src/pjrt_client/mpmd_partition.cc:362-376 | No slot of the table of temporaries is empty: slot i holds the store with index i |
| `TaskList.MpmdScheduler.AddReshardTask` | src/pjrt_client/mpmd_partition.cc:340-351 | A transfer is scheduled once however often it is added |
| `TaskList.MpmdScheduler.PrioritizeReshardsInSchedule` | src/pjrt_client/mpmd_partition.cc:353-360 | All transfers that read a value are pulled to the front of what is left |
| `TaskList.MpmdScheduler.AddHloModuleTask` | src/pjrt_client/mpmd_partition.cc:411-487 | A call is scheduled after the producers of its operands; this succeeds if and only if it has a color, known offsets, and stores for its operands and outputs |
| `TaskList.MpmdScheduler.AddTasksFromEntryComputation` | src/pjrt_client/mpmd_partition.cc:671-724 | Stores and tasks of a whole computation, with every transfer at the place of the output it reads; succeeds on every colored computation with available operands, and only when every call has a color, known offsets and stores |
| `TaskList.ScheduleIsComplete` | src/pjrt_client/mpmd_partition.cc:711-721 | The task list is a permutation of the calls and transfers of the computation |
| `TaskList.TransfersArePulledForward` | src/pjrt_client/mpmd_partition.cc:353-360 | A transfer that reads an output comes before every call behind that output, and after every call before it |
| `TaskList.OtherTransfersStay` | src/pjrt_client/mpmd_partition.cc:711-721 | Other transfers keep their place among the calls |
| `TaskList.CallsKeepOrder` | src/pjrt_client/mpmd_partition.cc:711-721 | Calls are scheduled in the order of the computation |

## Left out

- Integer widths: all numbers are unbounded. Overflow of `int` and `int64_t` is not modelled; truncating division of negative ticks is.
- LoopUnroll.Unroll: does not model scheduling names, shardings, the colors of loop-dependent instructions, or the replacement of the users of the loop, which read the returned outputs. A loop that is fed directly by another unrolled loop, for whose outputs no properties are recorded, aborts the compiler and is not modelled.
- FusionRewrite.FuseCalls: does not model control edges of the fused calls, a fused computation supplied by the caller, or the removal of task computations that nobody calls any more.
- ColorDfs.ColorSortedPostorder: between the computations on which it always succeeds and those on which it always fails, nothing is said. There the result depends on which user of the custom call is reached first, hence on operand order and colors, so no condition on the edges alone decides it. Its result is not linked to the post-order that `TaskGrouping` starts from.
- TaskCalls.GroupComputationIntoTasks: takes the class of each instruction as given, keeps tasks as values, treats a microbatch loop as an opaque task (its body is grouped by a separate call), and stops before unused instructions are removed and transfers between tasks are inserted. Roots that are tuples, which abort the compiler, are not modelled.
- ArgumentRecompute.MaybeRecomputeOperandFromArguments: the walk over all instructions that calls it, the choice of the cutoff, and the error for an operand without a clone, which cannot occur, are not modelled. An operand that is itself a slice offset is excluded for that reason.
- ReduceHoist.VisitLoop: conversions of shape and element type, the option that removes reduces for experiments, a reduce that feeds two accumulators, and a reduce with further readers in the body are not modelled. Such a reader gets the operand of the reduce instead, so it keeps its value only if that operand is invariant under the reduce. The reduction is a sum of integers; the code compares replica groups, not the kind of reduction.
- AxisAssignment.LogicalShardingToOpSharding: the comparison of an explicit device list with the mesh is dead code here, because the list is always empty.
- BufferNaming.Run: stated in the order of the walk. Nothing is claimed about the model time of different meshes, nor about the order after transfers are pulled forward.
- BufferPools.TakeAtTime: which of several equally early buffers comes first is left open, and `ClearUpToTime`, which nobody calls, is not modelled. Pools are held by value.
- AliasMatching.Run: the final verification of the configuration by XLA is not modelled, and donors are collected in parameter order.
- AliasMatching.FindBestMatch: outputs are elements of a root tuple, as every task has one (src/pjrt_client/mpmd_partition.cc:461-477). For a root that is not a tuple the code does not skip a temporary.
- AliasMatching.FindDonor: beyond its visit limit only what it finds and the direct operands it cannot miss are stated; among donors in equally few steps the first one is not pinned.
- ScheduleLoops.WavefrontNeverDeadlocks: which calls of an unrolled body depend on which is a parameter; that a body meets the product order is its author's choice and is not derived from the unrolled instructions. The same holds for `ScheduleLoops.ZeroBubbleNeverDeadlocks`.
- TaskList.MpmdScheduler.AddHloModuleTask: donation and alias set-up, the cache of compiled modules, sharding conversions and the skipped dummy task for slice offsets are not modelled.
- Coloring.Propagation.PropagateIf: depth, topological index and the visit filter are given facts of each instruction.
- ZeroBubble.ScheduleZeroBubble: the device and microbatch timers, which are only logged, are not modelled; ties between non-critical columns are broken arbitrarily.
- ScheduleLoops.ScheduleLoops: custom schedules are modelled by `CustomSchedule.ScheduleCustom`, which has its own result.
- `MpmdComputationFusion::Visit`, which chooses the sets to fuse: its pairwise tests do not exclude cycles when several sets are contracted in one round.
- `PropagateLoopColorDepth`, `PropagateDirectionally` and `ColorBackwards` of the coloring pass.
- `CanonicalizeSharding`, `ReplicateDims` and `ResizeSharding`: they depend on types whose source is not part of this model.
- `InstructionProperties`: apart from the loop-carried marks of `LoopUnroll.MarkCarried`, alias and derived-input facts are parameters with a stated meaning.
- `MpmdHoistLoopConvert`, `MpmdInstructionDelayRecolor`, `MpmdCutSizeMinimizer`: heuristics without a general guarantee.
- The PJRT client, executables and buffers, the C API, CUDA streams, JSON parsing, the JAX wrappers, plotting and mock execution: input, output and foreign calls.
- XLA passes used as they are, floating-point rounding, layouts and element types.
