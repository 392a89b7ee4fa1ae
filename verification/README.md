# rsleigh in Dafny: the optimizer, the call graph, and the bounded analyses

This project models the parts of rsleigh whose correctness is hardest to see from the code,
and proves what they promise for every input, every run or every interleaving.

- **The P-code peephole optimizer** (`Words`, `Pcode`, `Semantics`, `Folding`, `ConstantFolds`,
  `Liveness`, `Rewrites`, `Discipline`, `Optimizer`, `Peephole`). P-code gets an execution semantics over
  registers, temporaries, memory and control transfers. Each rewrite is sound under its own
  local condition; the backward analysis equals its declarative meaning; the passes establish
  the local conditions from the analysis; and up to four rounds keep a well-formed sequence
  well formed, no longer, and equivalent on every machine from every state. What constants and
  identities are folded to is described by arithmetic and, for the bitwise operators, by bits.
- **When the rounds reach a fixpoint** (`Fixpoint`), and what a fixpoint looks like (`Residue`).
- **What the optimizer needs** (`LeastLabels`, `Hypotheses`, `StaleCopies`): how to decide its
  hypotheses, a simple sufficient condition, and the inputs on which the code changes the
  meaning, with exact conditions.
- **Renaming of temporaries** (`Renaming`): when shifting Unique offsets commutes with execution.
- **Call graph and Tarjan's algorithm** (`CallGraph`, `GraphBuilder`, `Tarjan`, `Traversal`,
  `Sccs`): which edges the built graph has; the recursive traversal as an object updated in
  place; the components, their order, and recursion.
- **The parallel driver and the worklists** (`OrderedEmission`, `Reachability`, `Closure`).
- **Detached fragments** (`Coverage`, `Fragments`, `Worklist`): each fragment is exactly the
  instructions the decoder delivers from its target on, up to a point that is given a reason.
- **ARM and Thumb scanners** (`Thumb`, `CallCodes`, `CallSites`): what the scans report is
  exactly what the bytes encode, with the encodings written the other way round, from the
  instruction to the bytes.
- **Budget, cache and return demotion** (`Budget`, `FnvHash`, `BinaryCache`, `ReturnDemotion`).

`Basics` and `Options` hold what they share. `dafny verify dfyconfig.toml` checks all of it.

Some definitions are kept folded: `Semantics.Step`, `Optimizer.Round`, `Closure.Linked`, the
invariants of a Tarjan visit, of the fragment loop (`Fragments.StillRunning`, `Fragments.IsPart`)
and of its worklist (`Worklist.OnTheWay`, `Worklist.HasGrown`), and `CallCodes.ThumbCalls` and
`ArmCalls` open only where a proof asks for them (`StepIs`, `RoundIs`, `LinkedIs`, or a predicate
that names the value to be looked into). A folded predicate says the same as the one it folds.
Proofs about whole runs then do not depend on what single steps do, which keeps them quick.

Conditions that an operation tests are written out in the methods that run it, and again in the
predicates their contracts use, so that neither can change without the other.

## The optimizer's hypotheses

`Discipline.WellFormed` says what the theorem about `optimize` asks of a sequence.

- Sizes are positive, constants fit their size, operand sizes match; IntSext and IntAnd are at
  most eight bytes wide.
- Control leaves only at the end, a direct destination is in Ram, and there are no Const-space
  branches. Ram varnodes occur only as destinations. Outputs are registers or temporaries, and
  a CallOther result is a register.
- A temporary is assigned once and before it is read.
- Copies are stable. Each temporary is labelled with the registers it may carry a copy of and
  the registers it may be sunk into, and no register is written, or may come to be written by
  sinking, between the definition of a copy of it and a read of that copy.

The labels need not be guessed: the least ones can be computed, and a sequence is well formed if
and only if copies are stable with these (`LeastLabels.WellFormedIff`), so that
`LeastLabels.IsWellFormed` decides whether the theorem applies. `Hypotheses.ApartIsWellFormed` gives the simple case: the labels
exist whenever no register is both read and written. The stability condition is sufficient for
the whole optimizer, not necessary: whether an unstable copy shows depends on the values computed
in between.

## Where the code and its promises differ

- Pass 2 forwards a copy without looking at writes of its source
  (`pcode-ir/src/lib.rs:352-372`). `u=A; A=B; B=u` becomes `A=B; B=A`.
  `StaleCopies.ForwardedPastMovesIff` says exactly when the optimizer is right on a register
  saved across moves.
- Pass 4 can move a write of a register above a read of a copy of its old value, and pass 2 of
  the next round then forwards that copy. In `w=d; u=x+1; r=w+1; t=w+1; d=u`, where `t` is dead,
  every copy is read before its source changes, and four rounds still compute `r` from the new
  `d` (`Hypotheses.LateUpdateIsBroken`).
- And with all ones becomes a Copy at every width, but the mask has only 64 bits. The rewrite is
  right if and only if the width is at most eight bytes or the other operand is a constant, which
  has no more than 64 bits either (`Hypotheses.AllOnesRewriteIff`). A test of the repository
  asserts the rewrite at sixteen bytes (`pcode-ir/src/lib.rs:1476-1498`).
- Sign extension of a constant to more than eight bytes keeps the constant as it is. That is
  right if and only if its sign bit is clear (`Hypotheses.SextRewriteIff`).
- The output of a CallOther is reported by `writes_to` but not by `get_output`, so the shift of
  temporaries misses it. It also misses the temporary that holds the address of an indirect
  transfer through Ram, which only the offset of the destination names. The shift commutes with
  execution if and only if neither form occurs (`Renaming.ShiftCommutesIff`,
  `Renaming.RunCommutesIff`).
- Workers keep their decoder from job to job, and decoders remember global changes
  (`rsleigh-api/src/lib.rs:245-249`). The parallel path gives the sequential output in every
  interleaving if and only if no job's result depends on which earlier jobs its decoder has seen
  (`OrderedEmission.OverIsSequentialIff`).
- A comment says the passes run to a fixpoint (`pcode-ir/src/lib.rs:171`). The code stops after a
  round that does not shorten the sequence, and then it is at a fixpoint
  (`Fixpoint.IdleRoundSettles`), or after four rounds. As many rounds as operations are always
  enough (`Fixpoint.EnoughRounds`), and a chain of additions needs them all
  (`Fixpoint.ChainFixpointIff`): five additions defeat the four rounds.
- The unscoped closure stops after 32 passes. It is closed for every order of the symbols if and
  only if all that the seed forces lies within 32 calls of it (`Closure.ClosedIff`); 34 functions
  in a row, listed from the far end, are not followed to the end (`Closure.ChainUnfinished`).
- A comment says that a buffer which reuses an allocation is not mistaken for the earlier one
  (`rsleigh-decompile/src/binary_cache.rs:10-12`). Every byte enters the sample if and only if
  there are fewer than 16640 (`BinaryCache.FullySampledIff`). In any longer buffer a byte can be
  changed without a change of the key, and the cache returns the value of the earlier contents
  (`BinaryCache.OverwrittenIsMistaken`). Away from both ends a change of one byte is noticed if and
  only if the byte is in the first 64 of its stretch (`BinaryCache.MiddleChangeIff`).

## Model

| member | source | states |
|---|---|---|
| `Words.BitwiseBits` | pcode-ir/src/lib.rs:531-545 | each bit of And, Or and Xor is 1 exactly if both bits, at least one, exactly one of the operands' bits are |
| `Folding.SignedValueIsSigned` | pcode-ir/src/lib.rs:470-478 | the shift-left, arithmetic-shift-right reading of a sign is the two's-complement value, for every width up to eight bytes |
| `Folding.AllOnesMaskIs` | pcode-ir/src/lib.rs:449-456 | the mask is 2^(8n) - 1 |
| `Folding.FoldBinaryCorrect` | pcode-ir/src/lib.rs:649-665 | folded arithmetic and bitwise operations equal the modular result |
| `Folding.FoldShiftCorrect` | pcode-ir/src/lib.rs:667-684 | folded shifts equal the mathematical shift, over-wide amounts and arithmetic right shift included |
| `Folding.FoldCompareCorrect` | pcode-ir/src/lib.rs:686-702 | folded comparisons, signed ones included, equal the comparison of the values |
| `Folding.ConstFoldSound` | pcode-ir/src/lib.rs:487-630 | whatever is folded is the result the operation has in every state on every machine |
| `ConstantFolds.ArithmeticFolds` | pcode-ir/src/lib.rs:487-665 | addition, subtraction and multiplication of constants are folded, to the sum, the difference and the product modulo the capacity of the output |
| `ConstantFolds.BitwiseFolds` | pcode-ir/src/lib.rs:487-665 | And, Or and Xor of constants are folded, to the values with exactly those bits |
| `ConstantFolds.ComparisonsFold` | pcode-ir/src/lib.rs:487-702 | comparisons of constants are folded, to 1 or 0 |
| `ConstantFolds.SignedComparisonsFold` | pcode-ir/src/lib.rs:487-702 | signed ones too: a negative value is less than any other sign, otherwise the order of the words decides |
| `ConstantFolds.BooleansFold` | pcode-ir/src/lib.rs:487-702 | boolean And, Or and Xor of constants are folded, reading anything but 0 as true |
| `ConstantFolds.NegFolds` | pcode-ir/src/lib.rs:487-665 | the negation of a constant is folded, to what is missing to the capacity |
| `ConstantFolds.NotFolds` | pcode-ir/src/lib.rs:487-665 | the complement of a constant is folded |
| `ConstantFolds.BoolNotFolds` | pcode-ir/src/lib.rs:487-665 | 0 becomes 1 and any other constant 0 |
| `ConstantFolds.LslFolds` | pcode-ir/src/lib.rs:487-684 | the left shift of a constant is folded, whatever the amount |
| `ConstantFolds.LsrFolds` | pcode-ir/src/lib.rs:487-684 | the logical right shift of a constant is folded, whatever the amount |
| `ConstantFolds.AsrFolds` | pcode-ir/src/lib.rs:487-684 | the arithmetic shift of a constant is folded, of a negative one to the complement of its shifted complement |
| `ConstantFolds.ZextFolds` | pcode-ir/src/lib.rs:487-513 | the zero extension of a constant is folded, to the same value |
| `ConstantFolds.SextFolds` | pcode-ir/src/lib.rs:480-513 | the sign extension of a constant is folded, to the constant with the missing high ones added if its sign is set |
| `ConstantFolds.IdentitiesGo` | pcode-ir/src/lib.rs:184-287 | shifts by zero, Or with zero on either side and And with all ones become Copies |
| `ConstantFolds.LowPartsGo` | pcode-ir/src/lib.rs:248-285 | the low part of equal size, and the low part of a wider constant, become Copies |
| `ConstantFolds.WideZextGoes` | pcode-ir/src/lib.rs:193-199 | a zero-extended constant becomes a Copy beyond the folded widths too |
| `Folding.SimplifyOpSound` | pcode-ir/src/lib.rs:184-287 | passes 0, 1 and 1b on one operation: same output, same result in every state, operands still canonical, no new reads |
| `Liveness.AnalyzeUniqueOutputs` | pcode-ir/src/lib.rs:716-794 | the one-pass backward analysis with two maps gives, at every position of every sequence, the declarative read count and next access, and nothing for protected temporaries |
| `Liveness.BranchProtected` | pcode-ir/src/lib.rs:721-752 | exactly the temporaries written before and after one local conditional branch |
| `Liveness.AddressHolders` | pcode-ir/src/lib.rs:754-767 | exactly the offsets an indirect transfer through Ram names |
| `Liveness.NextAccessIsFirst` | pcode-ir/src/lib.rs:769-791 | a next access Read(j) is the first touch: a read at j, no read or write before |
| `Liveness.NextWriteMeansNoReads` | pcode-ir/src/lib.rs:769-791 | a next access Write means no read is counted |
| `Rewrites.RemoveDeadSound` | pcode-ir/src/lib.rs:374-392 | removing the write of a dead temporary keeps the meaning |
| `Rewrites.ForwardSound` | pcode-ir/src/lib.rs:348-372 | replacing the one read of a copied temporary by its source keeps the meaning when nothing in between writes the source or touches the temporary |
| `Rewrites.CollapseSound` | pcode-ir/src/lib.rs:294-346 | two equal masks in a row collapse to one |
| `Rewrites.SinkSound` | pcode-ir/src/lib.rs:394-446 | writing a once-read temporary directly to the destination of its Copy keeps the meaning when nothing in between touches that destination |
| `Discipline.ForwardKeeps` | pcode-ir/src/lib.rs:348-372 | forwarding keeps a sequence well formed |
| `Discipline.RenameKeeps` | pcode-ir/src/lib.rs:436-441 | giving an operation another output keeps the discipline, under the conditions passes 1a and 4 meet |
| `Optimizer.DeadAfterRemoval` | pcode-ir/src/lib.rs:374-379 | removing a dead write cannot make another temporary live, so the batch removal is right |
| `Optimizer.SimplifyAllImproves` | pcode-ir/src/lib.rs:182-287 | passes 0, 1 and 1b: equivalent, well formed, no longer |
| `Optimizer.CollapsePassImproves` | pcode-ir/src/lib.rs:294-346 | pass 1a: equivalent, well formed, no longer |
| `Optimizer.ForwardPassImproves` | pcode-ir/src/lib.rs:348-372 | pass 2: equivalent, well formed, no longer |
| `Optimizer.SurvivorsImprove` | pcode-ir/src/lib.rs:374-392 | passes 2b and 3: equivalent, well formed, no longer |
| `Optimizer.SinkPassImproves` | pcode-ir/src/lib.rs:394-446 | pass 4: equivalent, well formed, no longer |
| `Optimizer.RoundsImprove` | pcode-ir/src/lib.rs:170-447 | any number of rounds on a well-formed sequence: the same registers, memory and control transfers from every state on every machine, well formed, no longer |
| `Peephole.SimplifyInPlace` | pcode-ir/src/lib.rs:182-287 | three loops over the sequence, one pass each, simplify every operation |
| `Peephole.CollapseInPlace` | pcode-ir/src/lib.rs:289-346 | the index loop computes pass 1a and hands on a valid analysis |
| `Peephole.ForwardInPlace` | pcode-ir/src/lib.rs:348-372 | the index loop computes pass 2 from the analysis handed on, and its analysis stays valid |
| `Peephole.SweepInPlace` | pcode-ir/src/lib.rs:380-392 | collecting the dead positions and removing them from the back leaves exactly the survivors |
| `Peephole.SinkInPlace` | pcode-ir/src/lib.rs:394-446 | the index loop with re-analysis after each removal computes the pass |
| `Peephole.OptimizeOnce` | pcode-ir/src/lib.rs:181-447 | the passes in place, sharing one analysis, compute a round |
| `Peephole.Optimize` | pcode-ir/src/lib.rs:170-179 | terminates; a well-formed sequence comes out equivalent, well formed and no longer; the result is a fixpoint if one of the rounds did not shorten the sequence or there are at most four operations |
| `Fixpoint.IdleRoundSettles` | pcode-ir/src/lib.rs:170-447 | for every sequence, a round that does not shorten it leaves a fixpoint |
| `Fixpoint.EnoughRounds` | pcode-ir/src/lib.rs:170-179 | for every sequence, the rounds end at a fixpoint if one of them was idle, and always if there are as many rounds as operations |
| `Fixpoint.ChainFixpointIff` | pcode-ir/src/lib.rs:170-447 | for a chain of additions of constants, the rounds end at a fixpoint if and only if there are at least as many rounds as additions |
| `Fixpoint.FiveAdditions` | pcode-ir/src/lib.rs:170-179 | four rounds do not bring five additions to a fixpoint, five do |
| `Fixpoint.RepeatedMaskGoes` | pcode-ir/src/lib.rs:294-346 | two equal masks in a row come out of the optimizer as one |
| `Residue.FixpointIff` | pcode-ir/src/lib.rs:170-447 | a round leaves a sequence as it is if and only if no operation simplifies and every temporary that may be touched is read before it is written again and, if only once, is no copy, not masked again and not copied where nothing touches the destination in between |
| `Residue.OptimizedIsClean` | pcode-ir/src/lib.rs:170-179 | so the rounds leave nothing to do if one of them was idle or there are as many as operations |
| `Hypotheses.ApartIsWellFormed` | pcode-ir/src/lib.rs:170-447 | if no register is both read and written, the stability of copies comes for free |
| `LeastLabels.WellFormedIff` | pcode-ir/src/lib.rs:348-446 | the hypotheses hold if and only if the structural ones do and copies are stable with the computed least labels |
| `LeastLabels.IsWellFormed` | pcode-ir/src/lib.rs:348-446 | decides the hypotheses |
| `Hypotheses.AllOnesRewriteIff` | pcode-ir/src/lib.rs:237-246 | pass 0 gives And with all ones its own result, in every state on every machine, if and only if the width is at most eight bytes or the other operand is a constant |
| `Hypotheses.AllOnesOptimizedIff` | pcode-ir/src/lib.rs:170-246 | the same of the whole optimizer on that operation |
| `Hypotheses.SextRewriteIff` | pcode-ir/src/lib.rs:200-208 | pass 0 gives the sign extension of a constant its own result if and only if the output has at most eight bytes or the sign bit is clear |
| `Hypotheses.SextOptimizedIff` | pcode-ir/src/lib.rs:170-208 | the same of the whole optimizer on that operation |
| `Hypotheses.LateUpdateIsBroken` | pcode-ir/src/lib.rs:170-447 | in the late-update sequence every copy is read before its source is written, and four rounds nevertheless change its meaning |
| `StaleCopies.ForwardedPastMovesIff` | pcode-ir/src/lib.rs:170-372 | for any register moves between a copy and its one reader, the four rounds forward the copy, and keep the meaning if and only if the moves leave the copied register with its own value |
| `StaleCopies.SwapIsBroken` | pcode-ir/src/lib.rs:170-372 | the optimizer turns a swap through a temporary into two assignments of one register |
| `Renaming.WritesRenamedIff` | pcode-ir/src/lib.rs:150-163 | the shift renames what an operation writes if and only if it is not a CallOther with a temporary result |
| `Renaming.ShiftCommutesIff` | pcode-ir/src/lib.rs:150-163 | executing an operation commutes with the shift, on every machine from every state, if and only if it is neither a CallOther with a temporary result nor an indirect transfer through Ram |
| `Renaming.RunCommutesIff` | pcode-ir/src/lib.rs:150-163 | every stretch of a sequence commutes with the shift if and only if none of its operations has one of these forms |
| `Renaming.ShiftedConcatenation` | pcode-ir/src/lib.rs:150-163 | a sequence shifted above another's temporaries can be appended to it without interference |
| `CallGraph.DirectSuccessors` | rsleigh-decompile/src/callgraph.rs:207-217 | exactly the direct callees, each once |
| `GraphBuilder.BuildCallGraph` | rsleigh-decompile/src/callgraph.rs:347-449 | with distinct ids, u calls v if and only if v is an id, no import, and the fixed or resolved address of a call or terminator of u, or in its table when an image is given and no scalar resolves; likewise for imports and their names; an indirect edge is there exactly if a call is unresolved or goes elsewhere; no callee twice |
| `GraphBuilder.ExpectedIff` | rsleigh-decompile/src/callgraph.rs:398-449 | the classified edges of a function are exactly the callees its calls go to, described by addresses |
| `GraphBuilder.AddNew` | rsleigh-decompile/src/callgraph.rs:370-390 | adds the callees not seen before, each once, and leaves other callers alone |
| `Tarjan.PushKeeps` | rsleigh-decompile/src/callgraph.rs:292-297 | entering a node keeps the traversal invariant |
| `Tarjan.EmitKeeps` | rsleigh-decompile/src/callgraph.rs:312-323 | popping a component keeps the invariant: finished nodes are ranked by component, calls go down, members reach each other |
| `Tarjan.CloseKeeps` | rsleigh-decompile/src/callgraph.rs:292-324 | leaving a node on the stack keeps the invariant: it still climbs to an open node below it |
| `Tarjan.NoEscape` | rsleigh-decompile/src/callgraph.rs:299-312 | when lowlink equals index, no call leaves the top of the stack for a node below it |
| `Traversal.TarjanState.Visit` | rsleigh-decompile/src/callgraph.rs:292-324 | one recursive visit terminates and keeps the invariant, extends what is known and leaves the stack below untouched |
| `Traversal.TarjanState.Follow` | rsleigh-decompile/src/callgraph.rs:299-310 | each of the three cases of a successor keeps the visit under way and the low-link bounds |
| `Traversal.TarjanState.Conclude` | rsleigh-decompile/src/callgraph.rs:312-324 | emitting the component, or leaving the node on the stack, completes the visit |
| `Traversal.TarjanState.PopComponent` | rsleigh-decompile/src/callgraph.rs:312-323 | the popped component lists the top of the stack, each node once |
| `Sccs.CompleteIsSccs` | rsleigh-decompile/src/callgraph.rs:261-281 | a completed traversal has found the strongly connected components, callees first |
| `Sccs.TarjanSccs` | rsleigh-decompile/src/callgraph.rs:261-281 | for every graph: each node reachable from the functions is in exactly one component, two nodes share one if and only if each reaches the other, and a call leads to the same or an earlier component |
| `Sccs.IsRecursive` | rsleigh-decompile/src/callgraph.rs:234-255 | on those components, true exactly for the reachable functions on a non-empty cycle of direct calls; on a built graph, exactly for the functions on such a cycle |
| `OrderedEmission.Receiver.Receive` | rsleigh-cli/src/cli.rs:4083-4091 | inserting a result and draining the wanted ones is the inbox's step |
| `OrderedEmission.ForEachAlone` | rsleigh-cli/src/cli.rs:4057-4063 | the sequential path emits the results of job 0 to job count - 1 on one decoder, in order |
| `OrderedEmission.StepKeeps` | rsleigh-cli/src/cli.rs:4064-4092 | every claim, send and receipt keeps the account of where each claimed index is |
| `OrderedEmission.OutputIsPrefix` | rsleigh-cli/src/cli.rs:4064-4092 | in every state of every interleaving claimed indices split without loss or duplication into in flight, in the channel, pending and emitted, and the output holds the results of the first jobs in order; it is a prefix of the sequential output if no result depends on the decoder's history |
| `OrderedEmission.OverIsComplete` | rsleigh-cli/src/cli.rs:4050-4093 | when the workers are done and the channel is empty, every job's result is emitted in order and nothing is pending |
| `OrderedEmission.OverIsSequentialIff` | rsleigh-cli/src/cli.rs:4050-4093 | for any given number of workers from two on, every finished interleaving emits the sequential output if and only if no job's result depends on which earlier jobs its decoder has seen |
| `OrderedEmission.NoDeadlock` | rsleigh-cli/src/cli.rs:4064-4092 | until then a step is possible |
| `OrderedEmission.RunsEnd` | rsleigh-cli/src/cli.rs:4064-4092 | every interleaving has at most three steps an index and one a worker |
| `Reachability.ScopedReachable` | rsleigh-cli/src/cli.rs:2357-2380 | exactly the scope and the symbols within 32 direct calls of it |
| `Reachability.ExpandFrontier` | rsleigh-cli/src/cli.rs:2364-2377 | exactly the new symbols called from the frontier |
| `Closure.PullOne` | rsleigh-cli/src/cli.rs:2323-2346 | the loop over one symbol's calls, with both directions and the break, pulls in its callees if it is in, else itself if a callee is, and reports whether anything changed |
| `Closure.PullAll` | rsleigh-cli/src/cli.rs:2319-2347 | one pass over the symbols in their order, and whether it changed anything |
| `Closure.IdlePassCloses` | rsleigh-cli/src/cli.rs:2319-2347 | a pass that changes nothing shows that the set is closed under callers and callees |
| `Closure.ClosureWithin` | rsleigh-cli/src/cli.rs:2315-2348 | the loop computes a limited number of passes although it stops early; everything within as many calls of the seed, in either direction, is in, and everything in is forced by the seed |
| `Closure.TwoWayClosure` | rsleigh-cli/src/cli.rs:2315-2348 | the same for 32 passes; if the last pass changed nothing, the result is the least superset of the seed closed under callers and callees |
| `Closure.FarthestPasses` | rsleigh-cli/src/cli.rs:2319-2347 | with the farthest symbols first every pass adds exactly the symbols one call farther |
| `Closure.ClosedIff` | rsleigh-cli/src/cli.rs:2315-2348 | the passes end with a closed set for every order of the symbols if and only if all that the seed forces lies within as many calls of it |
| `Closure.ChainUnfinished` | rsleigh-cli/src/cli.rs:2315-2348 | a chain of two functions more than passes, listed from its far end, is not followed to its end |
| `Coverage.CoverMore` | rsleigh-cli/src/cli.rs:3904-3911 | coverage of an address, once true, stays true when an interval is added at an uncovered address |
| `Coverage.CoveredIsDecoded` | rsleigh-cli/src/cli.rs:3902-3911 | what the range lookup finds covered lies in an instruction |
| `Coverage.DirectJumpTargets` | rsleigh-cli/src/cli.rs:3860-3875 | exactly the Ram destinations of the branches and conditional branches |
| `Coverage.ControlLeaves` | rsleigh-cli/src/cli.rs:3993-4000 | true exactly if some operation returns, jumps indirectly or to Ram, or calls a function that does not return |
| `Fragments.Advance` | rsleigh-cli/src/cli.rs:3948-3992 | one round of the decoding loop: the instruction the decoder delivers at the next address, or the reason why there is none, and its report |
| `Fragments.DecodeFragment` | rsleigh-cli/src/cli.rs:3947-4007 | the appended instructions are consecutive from the target on, each what the decoder delivers at its address, none behind a point where the fragment is over, and the reason, the report and the charge are those of that point |
| `Worklist.DecodedInst` | rsleigh-cli/src/cli.rs:3947-4007 | instruction k of a fragment stands where the one before ends, and before it no code was covered, no function started, the limit was not reached and control did not leave |
| `Worklist.FindSegment` | rsleigh-cli/src/cli.rs:3919-3928 | the first segment that holds the target, or none if none does |
| `Worklist.AfterPart` | rsleigh-cli/src/cli.rs:3935-4010 | one followed target keeps the account of what has become of every jump |
| `Worklist.WorkOff` | rsleigh-cli/src/cli.rs:3913-4011 | the loop ends with an empty list, a target too many after 32 fragments, or a refused decoding; every jump target is known, reported, followed or still listed |
| `Worklist.FollowDetachedFragments` | rsleigh-cli/src/cli.rs:3883-4012 | the result is the given instructions and at most 32 such fragments at jump targets; every appended instruction is what the decoder delivers at its address, no address is decoded twice, the reports are exactly those that are due, and without any every direct jump target lies in decoded code or is a function start |
| `Thumb.MoveIff` | rsleigh-cli/src/arm32_raw.rs:200-216 | two halfwords decode to a move if and only if they are its encoding |
| `Thumb.PairsDoNotOverlap` | rsleigh-cli/src/arm32_raw.rs:200-249 | no pair starts inside another |
| `Thumb.PairsFromIsComplete` | rsleigh-cli/src/arm32_raw.rs:221-249 | the reference list holds exactly the pairs at even offsets |
| `Thumb.FindMovwMovtPairs` | rsleigh-cli/src/arm32_raw.rs:221-249 | although it jumps eight bytes after a hit, the scan returns that list |
| `Thumb.ConstantIsFound` | rsleigh-cli/src/arm32_raw.rs:221-249 | a constant is reported at an address if and only if the address is at an even offset and the bytes there are the MOVW of its low and the MOVT of its high half |
| `CallCodes.CallIff` | rsleigh-cli/src/arm32_raw.rs:130-144 | halfwords are the code of a BL or BLX with an offset, any even one from -2^24 to 2^24-2, if and only if they read as one and that offset is read back |
| `CallCodes.ThumbCallIff` | rsleigh-cli/src/arm32_raw.rs:107-144 | a Thumb-2 target is read at an offset if and only if the bytes there are a BL to it, PC + 4 plus the offset with the Thumb bit, or a BLX, the word that holds that address |
| `CallCodes.BlxTarget` | rsleigh-cli/src/arm32_raw.rs:130-144 | for a valid BLX that word is Align(PC, 4) plus its offset |
| `CallCodes.ArmCallIff` | rsleigh-cli/src/arm32_raw.rs:88-98 | an ARM-mode target is read if and only if the bytes are a BL to PC + 8 plus a word offset from -2^25 to 2^25-4, under any condition |
| `CallSites.FindCallSites` | rsleigh-cli/src/arm32_raw.rs:148-194 | strictly increasing, and exactly the addresses of the even offsets with the bytes of a BL or BLX, and the multiples of four with those of an ARM-mode BL, whose target lies in the blob and is the query up to the low bit |
| `CallSites.ScanCalls` | rsleigh-cli/src/arm32_raw.rs:87-123 | exactly the targets in the blob, the Thumb bit kept, of the bytes of a BL or BLX at an even offset or of an ARM-mode BL at a multiple of four |
| `CallSites.ForwardAndReverseAgree` | rsleigh-cli/src/arm32_raw.rs:65-194 | with an even base, an address has call sites if and only if the scans add an address equal to it up to the low bit |
| `CallSites.QueryAgreesWithScan` | rsleigh-cli/src/arm32_raw.rs:65-194 | the same of the results: the reverse query's list is not empty if and only if the forward scan's set holds the query up to the low bit |
| `CallSites.DiscoverFunctions` | rsleigh-cli/src/arm32_raw.rs:65-126 | the base, the odd words from offset 4 below 1024 that point into a blob which starts with 0x20xxxxxx, and those call targets, and nothing else |
| `Budget.DecodeStepIff` | rsleigh-decompile/src/budget.rs:93-151 | without an earlier stop a decode step is accepted if and only if fewer than deadline times 1000000 nanoseconds have passed and one more is within the limit; the stop is for the deadline exactly if that has passed, with the values of its reason; the new state either way |
| `Budget.WorkIff` | rsleigh-decompile/src/budget.rs:93-165 | the same of work, of which nothing counts inside a traversal |
| `Budget.PollIff` | rsleigh-decompile/src/budget.rs:153-156 | a poll is refused exactly if the deadline has passed |
| `Budget.NoScopeNoCharge` | rsleigh-decompile/src/budget.rs:93-98 | without a scope everything is accepted and nothing changes |
| `Budget.RunIsCharges` | rsleigh-decompile/src/budget.rs:45-165 | in every run of events that keeps its guards, whatever scopes and traversals come and go above it, a scope is charged exactly its own requests |
| `Budget.CountersAddUp` | rsleigh-decompile/src/budget.rs:45-165 | in every such run a scope's counter is what it was plus exactly the units it accepted, saturated, and under a limit never beyond it |
| `Budget.DecodeStepInRun` | rsleigh-decompile/src/budget.rs:45-165 | after any such run without a stop, the next decode step is accepted if and only if the deadline, counted from the opening, has not passed and what the scope had, accepted in the run and one more is within the limit |
| `Budget.WorkInRun` | rsleigh-decompile/src/budget.rs:45-165 | the same of work |
| `Budget.FirstStopSticks` | rsleigh-decompile/src/budget.rs:45-165 | in every such run the first stop a scope reports is what each of its later charges reports, and it freezes the scope |
| `Budget.RunKeepsLimits` | rsleigh-decompile/src/budget.rs:45-165 | in every run of events no live scope's counter exceeds its limit |
| `Budget.TraversalIsFree` | rsleigh-decompile/src/budget.rs:148-165 | in every run, work inside traversals can be replaced by polls without changing the thread or the units any scope accepts |
| `Budget.ScopeRestores` | rsleigh-decompile/src/budget.rs:55-77 | after any events in between, closing a scope restores the enclosing metrics and traversal flag exactly |
| `Budget.Account.Open` | rsleigh-decompile/src/budget.rs:57-69 | opening a scope in place is the step of the model; the guard saves the enclosing scope |
| `Budget.Account.Traverse` | rsleigh-decompile/src/budget.rs:45-52 | entering a traversal is the step of the model |
| `Budget.Account.Drop` | rsleigh-decompile/src/budget.rs:45-77 | dropping a guard puts back what it saved |
| `Budget.Account.ChargeFor` | rsleigh-decompile/src/budget.rs:93-165 | the in-place charge is the step of the model |
| `BinaryCache.Cache.Get` | rsleigh-decompile/src/binary_cache.rs:86-100 | computes only on a key other than the stored one; a panic leaves the slot as it was |
| `BinaryCache.SlotIsLatestAnswered` | rsleigh-decompile/src/binary_cache.rs:86-111 | the slot holds the key and value of the latest answered request |
| `BinaryCache.AnswersAreRight` | rsleigh-decompile/src/binary_cache.rs:86-111 | over any requests, panicking ones included, each answer is what direct computation gives, and is recomputed exactly when the latest answered key differs |
| `BinaryCache.Sample` | rsleigh-decompile/src/binary_cache.rs:55-73 | never indexes out of range; the hash is the digest of both edges and the strided runs |
| `FnvHash.EveryByteCounts` | rsleigh-decompile/src/binary_cache.rs:57-62 | the digest changes with every fed byte, whatever is fed before and behind it |
| `BinaryCache.SampledIff` | rsleigh-decompile/src/binary_cache.rs:55-73 | a position is fed exactly if it is among the first or last 4096, or in a whole run of 64 at a multiple of the stride |
| `BinaryCache.MiddleChangeIff` | rsleigh-decompile/src/binary_cache.rs:55-73 | away from both ends the sample changes with one byte if and only if the byte is in the first 64 behind a multiple of the stride |
| `BinaryCache.FullySampledIff` | rsleigh-decompile/src/binary_cache.rs:55-73 | every byte of a buffer is fed if and only if it has fewer than 16640 |
| `BinaryCache.OverwrittenIsMistaken` | rsleigh-decompile/src/binary_cache.rs:33-100 | in every buffer of 16640 bytes or more there is a byte whose change keeps the key, and the cache then returns the value of the earlier contents |
| `BinaryCache.SampleIsCheap` | rsleigh-decompile/src/binary_cache.rs:55-73 | at most 8192 + 259 * 64 bytes are fed |
| `ReturnDemotion.CollectCallsiteReturnUses` | rsleigh-decompile/src/analysis.rs:381-428 | every direct call in order, with whether any statement or terminator reads its result, although the search stops early |
| `ReturnDemotion.ReaderIff` | rsleigh-decompile/src/analysis.rs:381-460 | a function counts as read if and only if some block of some supplied function ends in a direct call to it whose result is read there |
| `ReturnDemotion.CollectReaders` | rsleigh-decompile/src/analysis.rs:453-460 | the map says true for exactly the functions whose result some supplied function reads |
| `ReturnDemotion.ValidateReturns` | rsleigh-decompile/src/analysis.rs:445-501 | changes exactly the stale-marked functions with a value return and no reading caller, and counts them; nothing when external callers are assumed |
| `ReturnDemotion.ReadersUnchanged` | rsleigh-decompile/src/analysis.rs:445-501 | demotion never changes which functions have a reading caller |
| `ReturnDemotion.SecondRunIsIdle` | rsleigh-decompile/src/analysis.rs:445-501 | a second run changes nothing and returns 0 |
| `ReturnDemotion.OrderDoesNotMatter` | rsleigh-decompile/src/analysis.rs:445-501 | any order of the function list gives the same functions and the same count |

## Left out

- Optimizer.RoundsImprove: stability of copies is a sufficient condition, because the exact one depends on the values computed at run time.
- Renaming.ShiftedConcatenation: asks for a shifted sequence without the two forms the shift does not see, because `Renaming.RunCommutesIff` shows the shift wrong with them.
- Worklist.FollowDetachedFragments: takes the worklist in any order, so it does not state the ascending order of the appended fragments.
- GraphBuilder.BuildCallGraph: exact for distinct ids only; a function listed twice gets the edges of both listings, each without duplicates of its own.
- OrderedEmission.OverIsComplete: a panicking job or a failed send is not modelled.
- Const-space branches and temporaries that straddle them in the optimizer theorem: relative targets depend on positions. The analysis itself is modelled with them.
- Overlapping registers and memory aliasing with varnodes: locations are exact varnodes, as in the optimizer's own matching.
- Float operations, divisions, carries, population counts, loads, stores and user-defined operations have no meaning of their own: the theorem holds for every machine that interprets them.
- Overflow of 64-bit Unique offsets in the shift, of 64-bit addresses in the fragment and blob arithmetic, and of the 32-bit Tarjan counter.
- `resolve_via_vars`, `resolve_vtable_targets` and `dependency_call`: a computed call target comes with the addresses they would find.
- The text of diagnostics in fragment following. The decoder is any function of an address and a range of the file, the functions that do not return are a set, the extents from the unwind tables a map, and the decode budget an allowance.
- Detection of libc callers that seeds the two-way closure, and the summaries built afterwards.
- `Key::file` and the file system, the mutex and its poisoning, and the clock, whose readings are parameters.
- `find_adr_sites`, `find_pc_literal_loads` and `build_constant_load_map`.
- The rest of the command line, the decoders behind the API, WebAssembly, and the text scans of the analysis: input, output and heuristics.
