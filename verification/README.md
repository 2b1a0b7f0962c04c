# Verified model of the KXC compiler core

This project models the hard parts of a small tensor compiler and proves what they promise.

* **Lowering** (`Tir`, `Te`, `IndexSpace`, `Lower`, `LoopNests`, `LowerCorrect`, `LowerTheorem`,
  `LowerErrors`, `LowerFrames`, `LowerPipeline`, `Reductions`): tensor-expression graphs with a denotation, TIR statements with
  a big-step memory semantics in which every fault shows, and the theorem that running the lowered
  statement leaves the denotation in every output buffer.
* **Tensor operators** (`Meaning`, `Concatenate`, `TopiBroadcast`, `ReshapeOp`): what the
  expressions built for concatenate, broadcasting, reshape and flatten denote, and when that is
  what the type checker announces.
* **Dominators** (`Dominators`): depth-first post-order, the in-place dataflow iteration, and the
  choice of immediate dominators.
* **Execution plans** (`Decimal`, `Json`, `JsonParser`, `JsonRoundTrip`, `JsonSpacing`,
  `JsonRefusals`, `ExecutionPlan`, `PlanRoundTrip`, `PlanDefaults`, `PlanText`, `PlanIo`): the hand-written JSON printer and parser and the exact set of plans
  that survive saving and reading; what is refused and what has a default.
* **Rewrites** (`Relay`, `Occurrences`, `RelaySubst`, `RelayPrint`, `CommonSubexpr`, `CseKeys`, `DeadLet`,
  `FoldReshapes`, `FoldMeaning`, `RemoveNoOp`): Relay expressions evaluate to a value and the list of `device.*`
  calls made on the way; each pass is proved against that meaning.
* **Adaptive runtime** (`KernelCache`, `AdaptiveRuntime`, `AdaptiveSafety`, `AdaptiveCalls`): clients,
  background workers, cache and submission set as a transition system, with safety over every
  run and the exact effect of whole calls and compilations.
* **Collectives and shape rules** (`Tensors`, `Columns`, `Collectives`, `Broadcast`, `Reshapes`,
  `SplitConcat`): arrays on the heap, the register file, scatter, gather and sum; the type rules.

`Base` holds the shared wrappers. Scalar arithmetic is a parameter: only integer indices are
required to behave as mathematical integers, so the lowering results hold for any floating-point
arithmetic. A loop in the source is a loop in a method here, proved against a specification
function; what the source promises is proved about that function.

Results that turned out to hold only under a condition are stated as equivalences:

* Elimination of common subexpressions uses printed text as its key, and the text leaves out
  constant payloads and call attributes. `CseKeys.CseExact` says for which vocabularies the pass
  is meaning-preserving; `CseKeys.ConstantsMerged` is a program whose value it changes.
* A plan's target limits are stored in 64 bits but read as 32-bit integers, an id of -1 is
  replaced by the constructor, and values with a shape but no dtype gain an empty one.
  `PlanRoundTrip.RoundTripExact` gives the exact condition, `LargeLimitIsLost` and
  `UntypedValueIsLost` plans that do not come back.
* Folding a chain of reshapes is exact under `Reshapes.FoldExact` and `Reshapes.FoldSameExact`, and
  in programs under `FoldMeaning.FoldChainExact`; a copied dimension or a real zero next to an
  inferred dimension breaks it, and a failing chain can succeed once folded
  (`FoldMeaning.FoldCanFail`, `Reshapes.ZeroHidesInference`, `FoldMeaning.FoldCanSucceed`).
* Folding drops the inner reshape's shape operand, so it keeps the device calls only if that operand
  has no side effect, which a caller can see with the purity analysis
  (`FoldMeaning.SkipTraceExact`, `FoldMeaning.FoldCanDropACall`).
* Broadcasting joins literal dimensions only, while convolution, pooling, flatten and concatenate
  build unfolded ones. `TopiBroadcast.ShapeExact`, `ReadsExact` and `BroadcastExact` say when the
  tensor has the announced shape and when its reads are in bounds; `LiteralOneIsNotExpanded` and
  `UnfoldedOneIsOverrun` are inputs the type checker accepts for which they fail.
* Removing an empty loop can hide a fault of its bound (`RemoveNoOp.EmptyLoopExact`).
* Group scatter loses rows when a group's array is longer than worker 0's
  (`Columns.CollectShards`).

## Model

| member | source | states |
|---|---|---|
| `LowerTheorem.LoweringCorrect` | src/relay/backend/lower.cc:326-449 | compiler correctness: for every graph the lowering accepts whose evaluated loads are in bounds (its denotation is defined), with dimensions that are integer expressions without variables (sums, differences, products, minima, maxima, and quotients and remainders by nonzero constants, as conv2d and pool2d build them), and every memory that holds the inputs and constants, the lowered statement runs without a fault (no access out of bounds, no read of an unwritten cell), leaves inputs and constants as they were, and ends with every output buffer holding at the row-major address of each in-bounds index the tensor's denotation there |
| `LowerTheorem.LoweredSignature` | src/relay/backend/lower.cc:606-627 | the parameters are the buffers of inputs, constants and outputs in this order, and the recorded counts say how many there are of each, through which the correctness theorem places the outputs |
| `LowerErrors.ErrorsMean` | src/relay/backend/lower.cc:523-617 | every error says what it means: no outputs, the first output that is repeated or not computed, or a reachable operation without a body, with several bodies or sources, with a load of the wrong rank or without a buffer, or with a reduction inside an expression |
| `Reductions.MaxReduceIsLargest` | src/relay/backend/lower.cc:425-433 | a max-reduce over a non-empty box is one of the source's values and at least each of them, for 64-bit integers and for floats with infinities |
| `Reductions.MinReduceIsSmallest` | src/relay/backend/lower.cc:425-433 | a min-reduce over a non-empty box is one of the source's values and at most each of them |
| `Reductions.SumReduceIsSum` | src/relay/backend/lower.cc:425-433 | a sum-reduce of integers is their sum over the box, taken one axis inside the other |
| `Reductions.EmptyReduction` | src/relay/backend/lower.cc:73-97 | over an empty box a sum is zero and an extreme the limit of its type, for integers and for floats |
| `LowerTheorem.LoweringAccepts` | src/relay/backend/lower.cc:523-617 | the lowering succeeds if and only if the outputs are a non-empty list of distinct computed tensors, every reachable operation is lowerable and every reachable placeholder was handed over; so no computed tensor is ever met without a buffer |
| `LowerPipeline.CleanedLoweringCorrect` | src/tir/transforms/remove_no_op.cc:53-56 | lowering followed by no-op removal still computes every output |
| `LowerTheorem.TopoFacts` | src/relay/backend/lower.cc:303-324 | the collected operations are exactly the ones reachable from the outputs, each once, every operation after all it loads |
| `Lower.Collector.CollectOps` | src/relay/backend/lower.cc:303-324 | the in-place traversal with its visited set produces the specified post-order and visits each operation once |
| `Lower.FindLoadsExact` | src/relay/backend/lower.cc:267-301 | the load search finds a set of tensors that covers an expression exactly when every load in the expression is in it |
| `LowerTheorem.LowerExprOk` | src/relay/backend/lower.cc:331-376 | expression lowering succeeds exactly on expressions whose loads all have buffers and matching ranks and that hold no nested reduction |
| `LowerCorrect.LowerExprCorrect` | src/relay/backend/lower.cc:331-376 | a lowered expression evaluates, against buffers that hold the loaded tensors, to the expression's tensor-level value, with selections evaluating one branch only |
| `LowerCorrect.LoadCorrect` | src/relay/backend/lower.cc:336-345 | a flattened buffer load reads the element the tensor load denotes |
| `LowerCorrect.EvalFlatten` | src/relay/backend/lower.cc:59-71 | the flattened index expression evaluates to the row-major address of the index |
| `Lower.FlattenIndex` | src/relay/backend/lower.cc:59-71 | the accumulation loop builds the specified expression; rank mismatch is an error, rank 0 is index 0 |
| `IndexSpace.HornerIsRowMajor` | src/relay/backend/lower.cc:66-69 | multiply-and-add from the left equals the sum of index times trailing size, for every rank |
| `IndexSpace.AddressBijection` | src/relay/backend/lower.cc:59-71 | row-major addressing is a bijection from the in-bounds index box onto the integers from 0 to the product of the shape |
| `IndexSpace.PointAtAddress` | src/relay/backend/lower.cc:382-387 | the loop nest reaches an index exactly at the step equal to its address |
| `IndexSpace.AddressOfPoint` | src/relay/backend/lower.cc:382-387 | the k-th point of the loop nest is in bounds and has address k, so each cell is visited exactly once |
| `LoopNests.NestIsEnumeration` | src/relay/backend/lower.cc:382-387 | nested loops whose bounds are dimension expressions run their body at every point of the box in lexicographic order |
| `LoopNests.SweepFills` | src/relay/backend/lower.cc:382-387 | a body that stores one cell per point fills the buffer cell by cell and touches nothing else |
| `LoopNests.ReducePoint` | src/relay/backend/lower.cc:416-443 | the initial store followed by the update loops leaves in the cell exactly the left fold, from the identity, of the source over the whole reduction box in order |
| `LowerCorrect.PointCorrect` | src/relay/backend/lower.cc:389-449 | the inner statement of an operation writes the denotation of one element |
| `LowerCorrect.ComputeCorrect` | src/relay/backend/lower.cc:389-449 | the statement of one operation leaves its tensor in its buffer and every other buffer unchanged |
| `LowerTheorem.RunOps` | src/relay/backend/lower.cc:581-601 | running the emitted statements in order leaves every collected tensor in its buffer |
| `LowerTheorem.BufferFacts` | src/relay/backend/lower.cc:530-577 | every tensor gets its own buffer: parameters first, then intermediates, none shared |
| `Te.ConvDimCounts` | include/te/topi/nn.h:117-123 | the output dimension that conv2d builds, division included, is a dimension the theorems cover, and where the padded input has room for the dilated kernel its value is the number of positions the kernel takes in steps of the stride |
| `Tir.QuotientTruncates` | src/codegen/codegen_llvm.cc:307-315 | the remainder is smaller than the divisor and has the sign of the dividend |
| `Tir.EvalInt` | src/codegen/codegen_llvm.cc:290-325 | an integer expression evaluates to its integer value, with quotients and remainders truncating toward zero |
| `LowerTheorem.AllocSizeIs` | src/relay/backend/lower.cc:612-617 | the extents of an allocation, which are the dimension expressions themselves, evaluate to the size of the shape |
| `LowerTheorem.RunAllocs` | src/relay/backend/lower.cc:612-617 | the allocations give the intermediates room of their exact size and disappear afterwards |
| `LowerFrames.ComputeFrame` | src/relay/backend/lower.cc:389-449 | an emitted statement writes only its own tensor's buffer and reads only those of tensors it loads; a reduction, and nothing else, also reads its own |
| `LowerFrames.EmittedFrame` | src/relay/backend/lower.cc:582-601 | in the emitted order a statement reads only buffers of tensors collected before it, and where no two tensors share a buffer the reductions are exactly the statements that read what they write |
| `Lower.WrapDataLoops` | src/relay/backend/lower.cc:382-387 | the backward loop builds the nest with the first axis outermost |
| `Lower.LowerComputeStmt` | src/relay/backend/lower.cc:389-449 | the statement builder agrees with its specification in every branch and error case |
| `Lower.LowerToTIR` | src/relay/backend/lower.cc:470-640 | the whole assembly loop agrees with its specification in every branch and error case |
| `Concatenate.ConcatenateMeans` | include/te/topi/transform.h:126-205 | at every output position the concatenate operation has exactly the element of the sequence concatenation of its inputs' rows along the axis |
| `Concatenate.ReadsWithinPart` | include/te/topi/transform.h:183-198 | the part a position falls in is read within that part's shape |
| `Concatenate.PartOf` | include/te/topi/transform.h:174-180 | every position along the axis falls in some part |
| `Concatenate.ConcatenateDefined` | include/te/topi/transform.h:126-205 | a concatenation of tensors that are defined everywhere is defined everywhere, so none of its reads is out of bounds and lowering it is covered by the correctness theorem |
| `Concatenate.ConcatenateAccepted` | src/relay/type_infer.cc:588-619 | the type checker accepts the sizes of the parts if and only if they agree but for the axis, and then announces exactly the sizes of the dimensions that the tensor expression builds |
| `Concatenate.ConcatenateShape` | include/te/topi/transform.h:134-139 | the output dimension along the axis is the unfolded sum of the inputs' dimension expressions |
| `Concatenate.OffsetValue` | include/te/topi/transform.h:134-139 | that sum expression has the sum of the lengths as its value |
| `Concatenate.ConcatenateBody` | include/te/topi/transform.h:140-200 | the offset loop and the backward selection loop build the specified expression |
| `Dominators.CapturePostDfsIndexInSpans` | src/relay/transforms/capture_post_dfs_index_in_spans.cc:76-198 | the order is the depth-first post-order of the graph, and every node without a span gets its position in it and that of its immediate dominator, which is strictly later except at the root; spans already there are kept |
| `Dominators.ComputeDominators` | src/relay/transforms/capture_post_dfs_index_in_spans.cc:127-159 | the in-place iteration terminates (the sum of set sizes falls) and ends with each set being exactly the nodes on every path from the root |
| `Dominators.Pass` | src/relay/transforms/capture_post_dfs_index_in_spans.cc:138-158 | one sweep keeps the sets sound and shrinking, and reports no change only at a fixpoint |
| `Dominators.FixpointExact` | src/relay/transforms/capture_post_dfs_index_in_spans.cc:136-159 | a sound fixpoint of the equations is exactly the dominance relation |
| `Dominators.IntersectInto` | src/relay/transforms/capture_post_dfs_index_in_spans.cc:63-72 | erasing in place leaves the intersection |
| `Dominators.DominatorsFormAChain` | src/relay/transforms/capture_post_dfs_index_in_spans.cc:161-184 | of two dominators of a node one dominates the other |
| `Dominators.IdomUnique` | src/relay/transforms/capture_post_dfs_index_in_spans.cc:161-184 | a node has at most one immediate dominator |
| `Dominators.PickIdom` | src/relay/transforms/capture_post_dfs_index_in_spans.cc:167-183 | the candidate with the largest dominator set is the immediate dominator, whatever order the set is scanned in |
| `Dominators.SpanUnique` | src/relay/transforms/capture_post_dfs_index_in_spans.cc:186-195 | the recorded span is determined by the graph and its root, whatever order sets are scanned in |
| `Dominators.IdomComesLater` | src/relay/transforms/capture_post_dfs_index_in_spans.cc:161-184 | on the acyclic graph the immediate dominator's post index is strictly greater than the node's |
| `Dominators.SiblingOrder` | src/relay/transforms/capture_post_dfs_index_in_spans.cc:88-111 | children are visited from the first to the last: one that was not finished before and does not descend from an earlier one comes after everything finished before and after all descendants of the earlier ones |
| `Dominators.PostAdds` | src/relay/transforms/capture_post_dfs_index_in_spans.cc:88-111 | a visit adds exactly the descendants of its node, behind what was finished before, children first |
| `Dominators.Traversal.Dfs` | src/relay/transforms/capture_post_dfs_index_in_spans.cc:88-111 | the recursive traversal computes the depth-first post-order, visits every descendant and records every edge |
| `Dominators.TraversalFacts` | src/relay/transforms/capture_post_dfs_index_in_spans.cc:88-121 | the recorded predecessors describe exactly the graph's paths from the root |
| `RemoveNoOp.RemoveNormalises` | src/tir/transforms/remove_no_op.cc:17-48 | the result has no evaluated zero, no sequence or no-op inside a sequence, only sequences of length two or more, and no loop around a no-op |
| `RemoveNoOp.RemoveIdempotent` | src/tir/transforms/remove_no_op.cc:17-48 | a second run changes nothing |
| `RemoveNoOp.RemoveRefines` | src/tir/transforms/remove_no_op.cc:17-48 | whenever the statement runs, the result runs with the same memory |
| `RemoveNoOp.RemovePreserves` | src/tir/transforms/remove_no_op.cc:17-48 | where the bounds of dropped loops are integer expressions over enclosing loop variables (quotients and remainders by nonzero constants included), the memory effect, faults included, is the same |
| `RemoveNoOp.EmptyLoopExact` | src/tir/transforms/remove_no_op.cc:38-48 | dropping an empty loop changes nothing if and only if both bounds evaluate to integers |
| `RemoveNoOp.DroppedBoundCanHideAFault` | src/tir/transforms/remove_no_op.cc:38-48 | a loop whose faulting bound is dropped together with the loop |
| `RemoveNoOp.NoOpExact` | src/tir/pass_utils.cc:40-66 | a statement is a no-op exactly when it is nothing, an evaluated literal zero or a sequence of no-ops, which is when flattening keeps nothing of it |
| `RemoveNoOp.Mutate` | src/tir/transforms/remove_no_op.cc:17-48 | the visitor agrees with its specification |
| `RemoveNoOp.AppendFlattenedStmt` | src/tir/pass_utils.cc:121-135 | appends the statement's non-empty parts with nested sequences spliced in |
| `RemoveNoOp.MakeSeqStmtOrUnit` | src/tir/pass_utils.cc:137-149 | zero, one or several statements become nothing, the statement or a sequence |
| `PlanRoundTrip.RoundTripExact` | src/base/execution_plan.cc:674-858 | deserializing a serialized plan gives back the plan if and only if the plan is in normal form: no null nodes or devices, attributes matching the operator, shape and dtype known for the same values, integers within int range, virtual devices with the id their constructor would give, at least one group, workers defined and in order |
| `PlanRoundTrip.SavedPlanReads` | src/base/execution_plan.cc:674-858 | a plan normal but for the order of its workers comes back with the workers in order and nothing else changed |
| `PlanRoundTrip.ReadSaveRead` | src/base/execution_plan.cc:779-858 | whatever text was read, saving the plan and reading it again changes nothing but the order of the workers |
| `PlanRoundTrip.ReadIsNormal` | src/base/execution_plan.cc:779-858 | every plan that can be read from a parsed value is in normal form but for the order of its workers |
| `PlanRoundTrip.LargeLimitIsLost` | src/base/execution_plan.cc:351-370 | a plan whose target limit needs more than 32 bits does not come back |
| `PlanRoundTrip.UntypedValueIsLost` | src/base/execution_plan.cc:593-601 | a plan with a shape but no dtype for a value does not come back |
| `PlanText.WholeText` | src/base/execution_plan.cc:680-777 | the text of a plan: ten members in this order, between braces, without space |
| `PlanDefaults.MissingAreDefault` | src/base/execution_plan.cc:282-304 | a member that is missing or null has its default |
| `PlanDefaults.EmptyTarget` | src/base/execution_plan.cc:351-370 | what a target without members is read as |
| `PlanDefaults.WorkerById` | src/base/execution_plan.cc:440-474 | a worker needs its id only: it is in group 0 and its rank is its id |
| `PlanDefaults.WorkerOnDevice` | src/base/execution_plan.cc:440-474 | a worker with a device and no virtual device gets one made from it |
| `PlanDefaults.OneGroup` | src/base/execution_plan.cc:440-474 | a placement without a positive group count has one group |
| `PlanDefaults.EmptyComm` | src/base/execution_plan.cc:554-583 | communication without attributes is within groups, a sum, and rooted at worker 0 |
| `PlanDefaults.MismatchRefused` | src/base/execution_plan.cc:372-406 | a device and a target of different known types or ids are refused |
| `PlanDefaults.NullNodesSkipped` | src/base/execution_plan.cc:779-866 | null nodes are skipped |
| `PlanDefaults.LastDeviceCounts` | src/base/execution_plan.cc:779-866 | of several entries for one value the last one that has a device counts |
| `PlanDefaults.VersionRefused` | src/base/execution_plan.cc:779-866 | any other version is refused as such |
| `PlanDefaults.PlanNeeds` | src/base/execution_plan.cc:779-866 | a plan that can be read is an object of version 1 with all ten members |
| `PlanDefaults.NodeKinds` | src/base/execution_plan.cc:779-866 | a node is read as the kind it names, and an unknown kind is refused as such |
| `PlanRoundTrip.VdBack` | src/base/execution_plan.cc:372-438 | a virtual device in normal form is written and read back unchanged |
| `PlanRoundTrip.VdRead` | src/base/execution_plan.cc:372-390 | every virtual device that is read is in normal form |
| `PlanRoundTrip.PlacementBack` | src/base/execution_plan.cc:440-521 | a placement is read back with its workers sorted by id |
| `PlanRoundTrip.CommBack` | src/base/execution_plan.cc:523-583 | communication attributes matching their operator are read back unchanged |
| `PlanRoundTrip.SortAscends` | src/base/execution_plan.cc:490-497 | workers are written by ascending id, missing ones last, and none is lost or added |
| `PlanRoundTrip.SortFacts` | src/base/execution_plan.cc:490-497 | the order workers are written in: already ordered lists are exactly those sorting leaves alone |
| `PlanRoundTrip.ValueBounded` | src/base/execution_plan.cc:177-196 | every integer a parsed value holds fits in 64 bits |
| `JsonRoundTrip.ParseRender` | src/base/execution_plan.cc:33-218 | parsing the text of a document gives the value it denotes, for every document with 64-bit integers and distinct names (RFC 8259 sections 6 and 7) |
| `JsonSpacing.ParseSpaced` | src/base/execution_plan.cc:37-64 | a document printed with any space around its tokens parses to the value it denotes |
| `JsonRefusals.ParseExact` | src/base/execution_plan.cc:37-218 | a printed document is accepted if and only if its integers fit in 64 bits and no object repeats a name |
| `JsonRefusals.TrailingRefused` | src/base/execution_plan.cc:37-48 | behind a document nothing but blanks may follow |
| `JsonRefusals.DuplicateRefused` | src/base/execution_plan.cc:91-114 | a name that comes twice is refused as such |
| `JsonRefusals.FractionRefused` | src/base/execution_plan.cc:177-218 | a numeral with a fraction or an exponent is refused |
| `JsonRefusals.UnicodeRead` | src/base/execution_plan.cc:136-172 | an escape of four hexadecimal digits in either case names a character up to 127, and any other one is read as a question mark |
| `JsonRefusals.EscapesSpelled` | src/base/execution_plan.cc:220-252 | the escapes of the writer, character by character |
| `JsonRoundTrip.ValueUndone` | src/base/execution_plan.cc:77-196 | reading a rendered value gives the value and stops right behind it |
| `JsonRoundTrip.StringUndone` | src/base/execution_plan.cc:136-175 | parsing an escaped string literal returns the original for every string |
| `JsonRoundTrip.EscapeUndone` | src/base/execution_plan.cc:220-245 | the parser undoes the escape of every character |
| `JsonRoundTrip.NumberUndone` | src/base/execution_plan.cc:177-196 | parsing a printed 64-bit integer returns it |
| `JsonParser.Parser.ParseAll` | src/base/execution_plan.cc:37-43 | the cursor parser accepts and rejects exactly as the grammar, with the same value or problem |
| `JsonParser.Parser.ReadValue` | src/base/execution_plan.cc:77-89 | dispatch on the next character, cursor left behind the value |
| `JsonParser.Parser.ReadObject` | src/base/execution_plan.cc:91-114 | the member loop, with duplicate names rejected |
| `JsonParser.Parser.ReadArray` | src/base/execution_plan.cc:116-134 | the element loop |
| `JsonParser.Parser.ReadString` | src/base/execution_plan.cc:136-175 | the character loop with escapes |
| `JsonParser.Parser.ReadNumber` | src/base/execution_plan.cc:177-196 | sign, leading zero, digits and the 64-bit range |
| `Json.Esc` | src/base/execution_plan.cc:220-245 | the escaping loop agrees with its specification |
| `PlanIo.SerializePlan` | src/base/execution_plan.cc:674-777 | the writers, appending field by field, produce exactly the text of the plan's document |
| `PlanIo.WriteVd` | src/base/execution_plan.cc:424-438 | appends the document of a virtual device |
| `PlanIo.WritePlacement` | src/base/execution_plan.cc:477-521 | appends the document of a placement with the workers sorted |
| `PlanIo.WriteComm` | src/base/execution_plan.cc:523-552 | appends the document of communication attributes |
| `PlanIo.WriteNode` | src/base/execution_plan.cc:687-737 | appends the document of a node |
| `PlanIo.WriteInts` | src/base/execution_plan.cc:326-341 | appends an integer array |
| `PlanIo.DeserializePlan` | src/base/execution_plan.cc:779-858 | reading field by field agrees with the specified reader in every branch and error case |
| `PlanIo.ReadNodeObject` | src/base/execution_plan.cc:794-818 | one node with its integer lists, by kind |
| `PlanIo.ReadPlacementObject` | src/base/execution_plan.cc:440-475 | the placement with its worker loop |
| `PlanIo.ReadNodeArray` | src/base/execution_plan.cc:791-819 | null nodes are skipped, the first bad node stops the reading |
| `PlanIo.ReadDeviceArray` | src/base/execution_plan.cc:821-832 | undefined devices are skipped, later entries replace earlier ones |
| `CseKeys.CseExact` | src/relay/transforms/eliminate_common_subexpr.cc:20-48 | with the printed text as key, the pass keeps value and device-call trace of every program over a vocabulary, under every interpretation, if and only if the text tells the vocabulary's variables, constants and pure operator attributes apart |
| `CseKeys.PairKept` | src/relay/pass/print_ir.cc:54-76 | two values bound in turn keep their meaning if and only if their keys differ or the values are equal |
| `CseKeys.KeyOmits` | src/relay/pass/print_ir.cc:54-76 | constants of one shape and dtype, and calls that differ in attributes only, have equal keys |
| `CseKeys.ConstantsMerged` | src/relay/transforms/eliminate_common_subexpr.cc:20-48 | a program with two constants of one shape and dtype whose value the pass changes |
| `CseKeys.KeyIdentifies` | src/relay/pass/print_ir.cc:43-125 | over such a vocabulary the printed text identifies a pure expression |
| `CommonSubexpr.CsePreserves` | src/relay/transforms/eliminate_common_subexpr.cc:20-48 | given that equal keys mean equal meaning, the pass keeps value and device-call trace of every expression in which no variable is rebound in its scope or both free and bound |
| `CommonSubexpr.CseMerges` | src/relay/transforms/eliminate_common_subexpr.cc:20-48 | nothing is left to merge: in the result no binding of a pure value repeats a key of an enclosing pure binding, inside functions, branches, arguments and values |
| `CommonSubexpr.CseFixes` | src/relay/transforms/eliminate_common_subexpr.cc:20-58 | the pass leaves an expression alone if and only if there is nothing to merge in it |
| `CommonSubexpr.CseIdempotent` | src/relay/transforms/eliminate_common_subexpr.cc:20-58 | a second pass changes nothing |
| `CommonSubexpr.SecondCallDropped` | src/relay/transforms/eliminate_common_subexpr.cc:56-58 | in a function, of two bindings of the same call the second one is dropped and its uses renamed |
| `CommonSubexpr.CseKeepsLet` | src/relay/transforms/eliminate_common_subexpr.cc:20-48 | the invariant of the scoped table: an entry's variable is in scope and holds the keyed value |
| `CommonSubexpr.Rewriter.Mutate` | src/relay/transforms/eliminate_common_subexpr.cc:20-51 | the rewriter restores its table and returns the specified expression |
| `RelaySubst.RenameMeans` | src/relay/pass_utils.cc:341-391 | substitution lemma: replacing a variable by one that is not captured is evaluating with it bound to that one's value |
| `RelaySubst.RenameShape` | src/relay/pass_utils.cc:341-391 | substitution keeps size, binders and scoping and trades one free variable for another |
| `RelayPrint.CallLines` | src/relay/pass/print_ir.cc:60-149 | the lines a call of two variables is printed as |
| `RelayPrint.HeadReads` | src/relay/pass/print_ir.cc:43-125 | the first printed line of an expression determines its constructor and printed data |
| `DeadLet.DcePreserves` | src/relay/transforms/eliminate_dead_let.cc:17-30 | the pass keeps value and device-call trace of every expression |
| `DeadLet.DceCleans` | src/relay/transforms/eliminate_dead_let.cc:17-30 | in the result no binding occurs whose variable does not occur in its body and whose value holds no effect, with occurrence and effect defined apart from the analyses |
| `DeadLet.DceFixes` | src/relay/transforms/eliminate_dead_let.cc:17-30 | the pass leaves an expression alone if and only if no such binding occurs in it |
| `DeadLet.DceIdempotent` | src/relay/transforms/eliminate_dead_let.cc:17-30 | a second pass changes nothing |
| `Occurrences.EffectExact` | src/relay/pass_utils.cc:200-255 | an expression is judged to have side effects if and only if a bare operator, a call through anything but a named operator, or a device call occurs in it |
| `Occurrences.UsesExact` | src/relay/pass_utils.cc:257-310 | a variable is counted zero times if and only if it does not occur |
| `Relay.PureHasNoTrace` | src/relay/pass_utils.cc:200-256 | an expression judged free of side effects makes no device call |
| `Relay.VisitEffect` | src/relay/pass_utils.cc:200-256 | the memoising visitor computes the analysis |
| `Relay.UncountedIsNotFree` | src/relay/pass_utils.cc:258-310 | a variable with use count zero is not free in the expression |
| `Relay.CountUses` | src/relay/pass_utils.cc:258-310 | the running counter computes the count |
| `Relay.DependsOnFree` | src/relay/pass_utils.cc:258-310 | the meaning of an expression depends only on its free variables |
| `FoldMeaning.FoldPreserves` | src/relay/transforms/remove_standalone_reshapes.cc:19-51 | in every interpretation whose reshape follows the type rule, the pass keeps value and device-call trace of every program, functions included, whose folds are good wherever evaluation comes by and whose dropped shape operands have no side effect; a fold is good where the data is no tensor, where the chain succeeds and the dimensions its last reshape copies agree with the data's, and where the chain fails and its last reshape fails on the data too |
| `FoldMeaning.GoodFoldExact` | src/relay/transforms/remove_standalone_reshapes.cc:19-43 | that condition says exactly when the last reshape gives on the data what it gives on the chain below it |
| `FoldMeaning.FoldChainExact` | src/relay/transforms/remove_standalone_reshapes.cc:19-43 | folding a chain, whether it succeeds or fails, keeps the program's meaning if and only if the fold is good |
| `FoldMeaning.EvenKept` | src/relay/transforms/remove_standalone_reshapes.cc:19-51 | the pass keeps value and device calls of every regular program in which each chain of two or more reshapes names all dimensions and one element count, a condition on the text alone; functions, whatever they are called with, included |
| `FoldMeaning.EvenIsSafe` | src/relay/transforms/remove_standalone_reshapes.cc:19-43 | every fold of such a program is good in every environment |
| `FoldMeaning.FunctionKept` | src/relay/transforms/remove_standalone_reshapes.cc:48-51 | the pass keeps every function that reshapes its own parameter, whatever it is called with, through requests that name all their dimensions and one element count |
| `FoldMeaning.CopyFreeIsGood` | src/relay/transforms/remove_standalone_reshapes.cc:19-43 | a last reshape without copied dimensions can always be folded onto a chain that succeeds |
| `FoldMeaning.SkipTraceExact` | src/relay/transforms/remove_standalone_reshapes.cc:36-41 | dropping the inner shape operand keeps the device calls if and only if it makes none |
| `FoldMeaning.FoldCanFail` | src/relay/transforms/remove_standalone_reshapes.cc:19-43 | a program whose chain succeeds and whose folded form fails |
| `FoldMeaning.FoldCanSucceed` | src/relay/transforms/remove_standalone_reshapes.cc:19-43 | a program whose chain fails and whose folded form succeeds |
| `FoldMeaning.FoldCanDropACall` | src/relay/transforms/remove_standalone_reshapes.cc:36-41 | a program that loses a device call together with the inner shape operand |
| `FoldMeaning.ChainMeans` | src/relay/type_infer.cc:454-511 | a chain with pure operands makes the device calls of its data and, if it succeeds, keeps its elements and their number |
| `FoldMeaning.SomeInterpretationFollows` | src/relay/type_infer.cc:454-511 | for every reading of attributes as requests there is an interpretation that follows the type rule |
| `FoldReshapes.FoldSettles` | src/relay/transforms/remove_standalone_reshapes.cc:19-43 | in the result no call of reshape occurs whose data is a call of reshape |
| `FoldReshapes.FoldFixes` | src/relay/transforms/remove_standalone_reshapes.cc:19-51 | the pass leaves an expression alone if and only if no such call occurs in it |
| `FoldReshapes.ChainCollapses` | src/relay/transforms/remove_standalone_reshapes.cc:19-43 | one pass turns a chain of any length into its last reshape |
| `FoldReshapes.FoldIdempotent` | src/relay/transforms/remove_standalone_reshapes.cc:19-43 | a second pass changes nothing |
| `ReshapeOp.ReshapeKeeps` | src/relay/op/tensor/transform.cc:184-204 | the lowering of reshape keeps the row-major contents if and only if it keeps the number of elements |
| `ReshapeOp.ReshapeElement` | src/relay/op/tensor/transform.cc:184-204 | the k-th element of the reshaped tensor is the k-th element of the input, counted around where the input is shorter, so no read is out of bounds |
| `ReshapeOp.InferredKeeps` | src/relay/type_infer.cc:454-511 | to every fully known shape that the type checker infers, the lowering of reshape keeps the contents |
| `ReshapeOp.FlattenKeeps` | src/relay/op/tensor/transform.cc:140-182 | the lowering of flatten keeps the row-major contents at every axis, over its unfolded products of dimensions |
| `ReshapeOp.FlattenAccepted` | src/relay/type_infer.cc:439-452 | the lowering of flatten accepts the axes the type checker accepts, from minus the rank to the rank, and its dimensions have the announced sizes, the products on both sides |
| `ReshapeOp.KeptIsDefined` | src/relay/op/tensor/transform.cc:184-204 | a tensor with the row-major contents of one that is defined everywhere is defined everywhere, so lowering such a reshape or flatten is covered by the correctness theorem |
| `ReshapeOp.UnflattenAddress` | src/relay/op/tensor/transform.cc:70-82 | the unflattened index is inside the shape, at the address modulo the number of elements |
| `ReshapeOp.UnflattenMeans` | src/relay/op/tensor/transform.cc:70-82 | the index expressions evaluate to the unflattened index |
| `ReshapeOp.UnflattenIndex` | src/relay/op/tensor/transform.cc:70-82 | the backward loop builds the specified expressions |
| `ReshapeOp.FlattenCompute` | src/relay/op/tensor/transform.cc:140-182 | the axis checks and product loops build the specified dimensions and body |
| `Reshapes.CountConserved` | src/relay/type_infer.cc:454-511 | reshape inference between fully known shapes conserves the element count |
| `Reshapes.FoldExact` | src/relay/type_infer.cc:454-511 | skipping the inner reshape gives the identical outcome, failures included, for every outer shape without copied dimensions if and only if the inner one neither loses nor invents knowledge of the shape |
| `Reshapes.FoldSameExact` | src/relay/type_infer.cc:454-511 | where the outer reshape succeeds after an inner one that kept the element count, skipping the inner one gives the same shape if and only if the copied dimensions agree |
| `Reshapes.FoldSame` | src/relay/type_infer.cc:454-511 | agreeing copied dimensions and element counts give the same outcome, failures included |
| `Reshapes.ReshapeCopies` | src/relay/type_infer.cc:475-486 | a copied dimension of the result is the input's |
| `Reshapes.ChainFolds` | src/relay/type_infer.cc:454-511 | a chain through fully known shapes infers what its last reshape alone infers, failures included, where the copied dimensions agree |
| `Reshapes.ChainFoldsExact` | src/relay/type_infer.cc:454-511 | where the chain succeeds, that is the exact condition |
| `Reshapes.CopyChangesFold` | src/relay/transforms/remove_standalone_reshapes.cc:36-41 | an outer shape with a copied dimension for which the folded reshape fails and the chain does not |
| `Reshapes.FailureCanBeFolded` | src/relay/transforms/remove_standalone_reshapes.cc:36-41 | shape [6] through [5] to [6] is an error of the type rule, and from [6] to [6] directly is not |
| `Reshapes.ExplicitReshape` | src/relay/type_infer.cc:454-511 | a request that names all its dimensions is accepted on a known shape if and only if the element counts agree, and is then the result |
| `Reshapes.ZeroHidesInference` | src/relay/type_infer.cc:495-500 | with a real zero the inferred dimension stays unknown |
| `Reshapes.ReshapeAccepts` | src/relay/type_infer.cc:454-511 | on a known shape a request is accepted if and only if it has no dimension below -1, at most one -1 and copies only what is there, and the counts agree or the inferred dimension divides out |
| `Reshapes.StepsExact` | src/relay/type_infer.cc:472-494 | a well-asked request names its dimensions with the copied ones filled in |
| `Reshapes.ReshapeInferType` | src/relay/type_infer.cc:454-511 | the loop agrees with its specification in every branch and error case |
| `AdaptiveSafety.Safety` | src/runtime/runtime_session.cc:44-161 | the invariant holds after every run, for any number of client threads and workers and every interleaving of their steps |
| `AdaptiveCalls.ScheduleExact` | src/runtime/runtime_session.cc:115-161 | a client that has read the count of its shape submits it, with that count as priority, if and only if the shape was counted at least twice and its hash is not claimed; otherwise it ends idle and nothing else changes |
| `AdaptiveCalls.ExactCall` | src/runtime/runtime_session.cc:44-62 | a call whose shape is cached counts it, runs its kernel and schedules nothing |
| `AdaptiveCalls.FuzzyCall` | src/runtime/runtime_session.cc:63-70 | a call whose shape is not cached runs the nearest covering kernel and reads the new count |
| `AdaptiveCalls.MissCall` | src/runtime/runtime_session.cc:72-80 | with no kernel near, a call compiles, caches and runs one for the shape itself |
| `AdaptiveCalls.FailedCall` | src/runtime/runtime_session.cc:72-75 | a compilation that fails leaves the shape counted and the cache as it was |
| `AdaptiveCalls.FuzzyCallSubmits` | src/runtime/runtime_session.cc:63-131 | a call on a nearby kernel goes on to submit if and only if the shape had been seen before and its hash is not claimed |
| `AdaptiveCalls.WarmUpCall` | src/runtime/runtime_session.cc:82-99 | warming up caches a kernel for a shape that has none and does nothing else |
| `AdaptiveCalls.TaskSucceeds` | src/runtime/background_compiler.cc:52-93 | a background compilation takes a task of highest priority, caches a kernel for its shape and is counted once |
| `AdaptiveCalls.TaskFails` | src/runtime/background_compiler.cc:52-93 | one that fails changes neither cache nor count, and is over all the same |
| `AdaptiveCalls.LeavesExact` | src/runtime/background_compiler.cc:57-63 | a waiting worker leaves if and only if shutdown was asked for and the queue is empty |
| `AdaptiveSafety.StepInv` | src/runtime/background_compiler.cc:33-93 | every step keeps the invariant: active tasks equal queued plus in-flight ones, every submitted task is in exactly one place, one claim per hash, every executed kernel cached and covering its query |
| `AdaptiveSafety.WaitAllMeans` | src/runtime/background_compiler.cc:42-45 | when the condition of the wait holds, every submission has run its callback or failed, and each successful one is an exact hit |
| `AdaptiveSafety.ShutdownMeans` | src/runtime/background_compiler.cc:23-31 | if nothing was submitted during shutdown, all workers have left only when all tasks have finished |
| `AdaptiveSafety.AccountedFor` | src/runtime/background_compiler.cc:33-93 | after every run active tasks equal queued plus in-flight ones, and every submission is in exactly one of queue, one worker's hands and finished |
| `AdaptiveSafety.ServedWell` | src/runtime/runtime_session.cc:44-80 | after every run each executed kernel was cached and covers its query, and the lookup after a synchronous compile never misses |
| `AdaptiveSafety.RunsOnce` | src/runtime/background_compiler.cc:52-63 | a task taken by a worker is never taken again |
| `AdaptiveSafety.OncePerHash` | src/runtime/runtime_session.cc:115-131 | at most one background compile per shape hash, and only of shapes seen at least twice |
| `AdaptiveSafety.RunGrows` | src/runtime/runtime_session.cc:44-96 | cached shapes, counts, submissions and finished tasks never shrink along a run |
| `AdaptiveSafety.TaskStep` | src/runtime/background_compiler.cc:33-93 | steps keep the accounting of tasks |
| `AdaptiveSafety.SessionStep` | src/runtime/runtime_session.cc:44-161 | steps keep the accounting of claims, counts and executions |
| `KernelCache.Cache.GetFuzzy` | src/runtime/kernel_cache.cc:19-32 | a fuzzy hit is a cached signature that covers the query with least total slack; a miss means none is near; a cached query finds itself |
| `KernelCache.ShapeDistance` | src/runtime/kernel_cache.cc:54-73 | the nested loops return the difference of the dimension sums, or -1 exactly when the cached shapes do not cover the query |
| `KernelCache.TotalMonotone` | src/runtime/kernel_cache.cc:54-73 | covering shapes are at least as large in total, and equally large only if equal |
| `KernelCache.Predictor.ShouldCompile` | src/runtime/shape_predictor.cc:43-59 | the answer is whether the count reaches the threshold; the ratio never matters |
| `KernelCache.Predictor.Record` | src/runtime/shape_predictor.cc:18-26 | counts the shape and keeps the latest 200 |
| `Collectives.ScatterGatherAll` | src/base/disco/ccl_cpu.cc:238-283 | scattering worker 0's array and gathering the parts restores it on worker 0, for every rank, inner size and worker count, also in place |
| `Collectives.ScatterGatherGroups` | src/base/disco/ccl_cpu.cc:238-294 | the array that was on a group's first worker, or worker 0's where there was none, comes back there if and only if it has worker 0's first dimension, also when gathering into the register that was scattered to |
| `Collectives.GroupGets` | src/base/disco/ccl_cpu.cc:259-271 | worker i of group g gets the i-th part of the array on the group's first worker where there is one, and of worker 0's where there is none |
| `Collectives.OthersKeep` | src/base/disco/ccl_cpu.cc:259-271 | a worker beyond the last group keeps what it had |
| `Columns.SplitThenCollect` | src/base/disco/ccl_cpu.cc:238-294 | collecting what every group split gives a group's array back on its first worker if and only if no row of it was left over |
| `Columns.CollectShards` | src/base/disco/ccl_cpu.cc:134-174 | joining the parts of an array gives the array if and only if no row is left over |
| `Tensors.JoinShards` | src/base/disco/ccl_cpu.cc:101-174 | joining the equal parts of a tensor gives the tensor |
| `Tensors.SumOfBoth` | src/base/disco/ccl_cpu.cc:187-209 | the sum over two lists of tensors is the sum over both, element by element, whatever is missing |
| `Tensors.SumOfOne` | src/base/disco/ccl_cpu.cc:187-209 | of one tensor the sum is the tensor, of none there is none |
| `Collectives.AllReduce` | src/base/disco/ccl_cpu.cc:187-209 | every worker ends with its own copy of the element-wise sum of the sources that are there; the sources are unchanged unless source and destination are one register; it succeeds if and only if a source is there, all have one size, and the dtype can be added or there is only one |
| `Collectives.SumSources` | src/base/disco/ccl_cpu.cc:193-202 | the accumulating loop computes the sum in a fresh array |
| `Collectives.AddInPlace` | src/base/disco/ccl_cpu.cc:64-99 | adds element by element in place, or changes nothing and reports why |
| `Collectives.SliceFirstDim` | src/base/disco/ccl_cpu.cc:101-132 | copies the rows of the slice into a new array, with the exact conditions for an error |
| `Collectives.ConcatFirstDim` | src/base/disco/ccl_cpu.cc:134-174 | copies the arrays one behind the other into a new array, with the exact conditions for an error |
| `Collectives.CloneArray` | src/base/disco/ccl_cpu.cc:51-62 | a new array with the same contents |
| `Collectives.ScatterAll` | src/base/disco/ccl_cpu.cc:238-258 | succeeds exactly when worker 0's first dimension is divisible by the number of workers, and hands out consecutive parts |
| `Collectives.ScatterGroups` | src/base/disco/ccl_cpu.cc:238-272 | hands out parts in every group, the group's own array or else worker 0's, with the exact conditions for success |
| `Collectives.GatherAll` | src/base/disco/ccl_cpu.cc:274-283 | joins the arrays of all workers on worker 0 |
| `Collectives.GatherGroups` | src/base/disco/ccl_cpu.cc:285-294 | joins the arrays of each group on its first worker; with more groups than workers it leaves worker 0 with nothing |
| `Collectives.Session.AllocateRegister` | src/base/disco/threaded_session.cc:29-36 | a new register, empty on every worker, nothing else changed |
| `Collectives.Session.GetRegister` | src/base/disco/threaded_session.cc:38-43 | reads the register or reports which index is out of range |
| `Collectives.Session.SetRegister` | src/base/disco/threaded_session.cc:45-51 | changes one register of one worker or nothing |
| `TopiBroadcast.ShapeExact` | include/te/topi/broadcast.h:45-74 | for sizes the type checker accepts, the inferred dimensions have the sizes it announces if and only if at every aligned position both dimensions are literals, or their values are equal, or the second one's value is 1 |
| `TopiBroadcast.ReadsExact` | include/te/topi/broadcast.h:18-74 | no index of the output is read outside an input if and only if the output is empty or at every aligned position both dimensions are literals the type rule joins, or, where one is not a literal, the first value is at most the second or the second is the literal 1 |
| `TopiBroadcast.BroadcastExact` | include/te/topi/broadcast.h:45-74 | for accepted sizes and a non-empty output, the shape is the announced one and every read is in bounds if and only if at every position both dimensions are literals, or they are equal, or the second one is the literal 1 |
| `TopiBroadcast.BroadcastCorrect` | include/te/topi/broadcast.h:90-102 | under that condition a broadcasting operator has the announced shape and at each index the operator applied to the elements with index 0 along every size of 1 |
| `TopiBroadcast.BroadcastDefined` | include/te/topi/broadcast.h:90-102 | an operator that is defined on all values, applied to tensors that are defined everywhere, is defined everywhere, so that lowering it is covered by the correctness theorem, if and only if no read is out of bounds |
| `TopiBroadcast.ElementIs` | include/te/topi/broadcast.h:90-102 | each element is the operator applied to the elements at the two input indices, inside the inputs or not |
| `TopiBroadcast.LiteralsAgree` | include/te/topi/broadcast.h:45-74 | among literal dimensions the type checker's shape equals the tensor expression's, and the reads of a non-empty output are in bounds if and only if the type checker accepts |
| `TopiBroadcast.LiteralOneIsNotExpanded` | include/te/topi/broadcast.h:61-70 | a literal 1 against the unfolded 112 of a convolution: the type checker announces 112, the tensor has size 1 |
| `TopiBroadcast.UnfoldedOneIsOverrun` | include/te/topi/broadcast.h:34-39 | a literal 5 against the unfolded 1 of a convolution: the second input is read at 4 |
| `TopiBroadcast.InferBroadcastShape` | include/te/topi/broadcast.h:45-74 | the loop computes the inferred dimensions, in both branches |
| `TopiBroadcast.GetBroadcastIndices` | include/te/topi/broadcast.h:18-42 | the loop computes the input index, 0 for a literal 1 only |
| `Broadcast.AcceptsExact` | src/relay/type_infer.cc:81-106 | shapes are accepted if and only if at every aligned position the dimensions are equal or one of them is 1 or unknown; the announced dimension is known if and only if both are, and then the one that is not 1 |
| `Broadcast.UnknownSound` | src/relay/type_infer.cc:81-106 | if any instance of the unknown dimensions can be broadcast, the type checker accepts and its shape describes that instance's (ONNX Multidirectional Broadcasting) |
| `Broadcast.BroadcastShape` | src/relay/type_infer.cc:81-106 | the loop computes the joined shape and fails exactly when some aligned pair is known, different and without a 1 |
| `SplitConcat.ConcatSplitExact` | src/relay/type_infer.cc:588-666 | concatenating the parts of a split gives the original type if and only if the split dimension is known or written as -1, for sections and for split points |
| `SplitConcat.SectionsExact` | src/relay/type_infer.cc:621-648 | one number asks for that many parts of equal size: when they are there, what they are, and which error it is when they are not |
| `SplitConcat.PointsExact` | src/relay/type_infer.cc:649-666 | split points are accepted if and only if they are in order and within the dimension, and part k is what lies between point k - 1 and point k |
| `SplitConcat.ConcatExact` | src/relay/type_infer.cc:588-619 | fields are joined if and only if each has the rank of the first and its known dimensions but the one along the axis, where the lengths are added |
| `SplitConcat.ConcatSplit` | src/relay/type_infer.cc:588-666 | the concatenated type, for every accepted split |
| `SplitConcat.SplitInferType` | src/relay/type_infer.cc:621-666 | the section and split-point loops agree with their specification in every branch and error case |
| `SplitConcat.ConcatenateInferType` | src/relay/type_infer.cc:588-619 | the nested loops agree with their specification and fail exactly when it does |

## Left out

- The conversion from Relay calls to tensor expressions, names and attributes of the lowered function: lowering starts from the tensor-expression graph.
- A tensor and its operation are one number; graphs are listed in creation order, which is how `te::compute` builds them, so cycles cannot occur.
- Dimensions and reduction domains with variables, selections or calls in them. The `Block` statement is not part of the TIR model.
- Integer widths, floating-point rounding and signed zero: values are mathematical, with infinities for the identities of min and max.
- Checked types and virtual devices on Relay nodes: the printed key is the text without the type suffix, and the passes are proved at the level of values.
- Sharing of Relay nodes: expressions are trees, and variables carry their identity.
- `FoldConstant`, `SimplifyExpr`, `FoldTupleGetItem` and the other Relay and TIR passes.
- `broadcast_to`, transpose, and the elementwise operators that do not broadcast. The index function of reshape is `Lower.FlattenIndex`, which has the same branches.
- FoldMeaning.FoldPreserves: a reshape that leaves a dimension open is taken to fail at run time.
- Dominators.Traversal.Dfs: nodes are numbered so that children are smaller, which an acyclic Relay graph allows.
- PlanRoundTrip.RoundTripExact: covers the fields that are written; the kernel's function, the other device attributes, the other parts of the pass context and the map from virtual devices to workers are not part of the model, and workers with equal ids are taken to keep their order.
- Error texts: an error is modelled by its kind, and the parser's position in it is left out.
- Condition variables, wake-ups and liveness of the background compiler; modules used through cache pointers after the lock is released; profiling.
- KernelCache.ShapeDistance: sums are not limited to 64 bits.
- Collectives.AllReduce: is stated for sources of one dtype, because the source adds the bytes of the others as if they had the first one's; rounding is not modelled.
- Collectives.AddInPlace: is stated for operands of one dtype, for the same reason.
- Collectives.SumSources: is stated for sources of one dtype, for the same reason.
- Collectives.ConcatFirstDim: is stated for shards whose buffers hold the rows their first dimension announces, because the source copies without checking.
- Collectives.GatherAll: is stated for such shards too, for the same reason.
- Collectives.GatherGroups: is stated for such shards too, for the same reason.
- Collectives.ScatterGroups: the division by zero with more groups than workers is an error value.
- The copy, broadcast, send and receive collectives and the plan executor are not modelled.
- `comm_reduce` with kept dimensions, schedule primitives, code generation, device back ends and the Python layer.
