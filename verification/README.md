# A verified model of the CornellCS6120 Bril middle-end

This project models, in Dafny, the analysis and optimisation layer of a small
compiler middle-end for Bril (the Big Red Intermediate Language). The
original is written in Python. The model covers these parts:

- **Block splitting.** Splitting a function's instructions into basic blocks
  either at labels or after branches, and naming blocks from a leading label
  or from a process-wide block counter.
- **The CFG.** Construction of a name-keyed graph whose edges come from `jmp`
  and `br` labels, and the cycle-guarded collector of a node's inputs.
- **Dataflow.** The merge and transfer functions (union, constant propagation
  with its `"?"` conflict marker, live variables, reaching and defined
  variables) and the FIFO worklist solver, in both its library and its
  lab-4 versions.
- **Loop-invariant code motion.** Marking loop-invariant instructions to a
  fixpoint, building a `prehead{N}` preheader block, and the block-list
  rewrite that inserts preheaders, strips flagged instructions and retargets
  the jump before each preheader.
- **SSA construction.** Versioned-name stacks and counters, phi placement over
  the iterated dominance frontier, and renaming down the dominator tree with
  phi-argument recording. Also the "every destination assigned at most once"
  checker.
- **Local passes.** Dead-code elimination, both the per-block version and the
  global trivial one, and local value numbering.

Python dictionaries whose iteration order matters are association lists
(`PyDict.Dict`, a `seq<(K, V)>` whose `Put` replaces in place or appends).
The other dictionaries are Dafny `map`s. Objects the source mutates are
classes: `Block`, `BlockCFGNode`, `CFG`, `Loop`, `LoopPass`, `Ssa` and the
process-wide `Counter`s for `Block.block_id` and `Loop.PREHEAD_IDX`. Passes
that rewrite a list of blocks in place work on an `array<seq<Instr>>`. Most
imperative methods are proved against a specification function, and the
properties are proved about that function. The invariant-marking methods
are proved against `Loops.Replay`, a replay of the marks in order.
`Ssa.Ssa.Rename` and `Ssa.Create` have no specification function; what
their contracts leave out is listed under "## Left out".

A preheader `Block` holds its loop's own invariant list, not a copy, so a
label inserted by a later preheader of the same loop shows in the earlier
ones too. Dafny sequences are values, so `Loop` keeps the blocks built from
its list in a `preheaders` field and updates them together with the list;
`LoopPasses.Shared` is the resulting view of the output.

Python exceptions are a `Result`. The error kinds are `KeyError`,
`IndexError`, `UnboundLocal`, `RecursionLimit` and `OutOfFuel`.

The computations the source calls but does not define are inputs to the
model: dominance frontiers, immediate dominators, `find_loops`,
`switch_directions`, and the annotated and full definitions of a block.

## Model

| member | source | states |
|---|---|---|
| SplitAtLabels.SplitInBlocks | util/util.py:4-23 | the blocks are fresh, hold the label partition of the input and are named by the block counter in order; the counter ends where naming leaves it |
| SplitAtLabels.LabelPartition | util/util.py:13-21 | the parts concatenate back to the input; a label starts every part but the first and appears nowhere else; a leading label yields an empty first part; the last part is non-empty; there are (number of labels) + 1 parts for a non-empty input |
| SplitAtLabels.ScanCoversInput | util/util.py:13-21 | the loop's finished blocks plus the current block always concatenate to the instructions read so far |
| SplitAtLabels.ScanPlacesLabels | util/util.py:14-18 | in the loop's state, a label sits only at the head of a block |
| SplitAtLabels.LeadingLabelGivesUnnamedBlock | util/util.py:15 | when the first instruction is a label, the first block is empty and has no name |
| SplitAtLabels.NamesOf | lib/Block.py:13-19 | naming a sequence of blocks gives one name per block |
| SplitAtLabels.NamesOfFirst | lib/Block.py:13-19 | the first block's name is what naming its own instructions gives |
| SplitAtBranches.SplitInBlocks | L3/src/util.py:1-19 | the blocks concatenate back to the input; none is empty; every block but the last ends with `br`/`jmp`, and no `br`/`jmp` occurs before a block's end |
| SplitAtBranches.BranchPartitionUnique | L3/src/util.py:10-17 | only one partition has these properties, so the method computes exactly it and labels never cut a block |
| SplitAtBranches.FlattenNonEmptyLength | L3/src/util.py:11-17 | with no empty block there are at most as many blocks as instructions |
| Bril.NatToString | lib/Block.py:18 | the decimal rendering of a counter is non-empty and made of digits only |
| Bril.NatToStringInjective | lib/Block.py:18 | different counter values render differently, so counter-made names never collide |
| Bril.FlattenConcat | util/util.py:13-21 | concatenating the blocks distributes over splitting the block list |
| Blocks.NameFrom | lib/Block.py:13-19 | a leading label names the block and leaves the counter; otherwise the block gets the decimal counter and the counter grows by exactly one; an empty list leaves the name `None` |
| Blocks.Block.constructor | lib/Block.py:4-19 | the block keeps the instruction list; its name and the counter are what naming gives |
| Blocks.Dests | lib/Block.py:26-31 | the list of destinations has at most one entry per instruction; `d` is in it iff some instruction writes `d` |
| Blocks.DestsConcat | lib/Block.py:26-31 | destinations are collected in instruction order |
| Blocks.Block.GetDefinitions | lib/Block.py:21-31 | `d` is a definition iff some instruction of the block writes `d` |
| Blocks.AllArgs | lib/Block.py:38-43 | `x` is listed iff some instruction reads `x` |
| Blocks.AllArgsConcat | lib/Block.py:38-43 | uses are collected in instruction order, duplicates kept |
| Blocks.Block.GetUses | lib/Block.py:33-43 | `x` is a use iff some instruction of the block reads `x` |
| Blocks.Block.GetName | lib/Block.py:45-55 | `get_name` and `get_block_name` agree |
| Blocks.Block.AddInstr | lib/Block.py:63-69 | the instruction list grows by the new instruction at the end; definitions and uses grow by its own |
| Bril.Counter.constructor | lib/Block.py:2 | a counter starts at the given value |
| PyDict.Put | lib/CFG.py:14 | assigning a new key appends it; assigning an existing key keeps the length |
| PyDict.PutFacts | lib/BlockCFGNode.py:18 | after assignment the key maps to the value; an existing key keeps its position, a new key goes last; other entries are unchanged |
| PyDict.PutEntries | lib/BlockCFGNode.py:26 | assignment keeps the keys unique and changes only the assigned key's entry |
| PyDict.PutOther | lib/CFG.py:14 | assigning one key leaves the presence and value of every other key unchanged |
| PyDict.PutGet | lib/CFG.py:14 | right after assigning a key, lookup of that key returns the assigned value |
| PyDict.PutKeys | lib/CFG.py:14 | the key list is unchanged when the key was present, and gains it at the end otherwise |
| PyDict.PutUnique | lib/BlockCFGNode.py:18 | assignment never creates a duplicate key |
| PyDict.KeysHasKey | lib/CFG.py:22 | a key is present iff it is in the key list |
| PyDict.IndexOf | lib/CFG.py:22 | a key is found iff it is present, at its first occurrence |
| PyDict.Get | lib/CFG.py:22 | lookup returns a value stored under that key |
| PyDict.GetUnique | lib/CFG.py:22 | with unique keys, lookup returns the entry's own value |
| PyDict.HasKeyIndex | lib/BlockCFGNode.py:34 | membership holds iff some entry has that key |
| CfgNode.BlockCFGNode.constructor | lib/BlockCFGNode.py:2-10 | a new node wraps its block with no predecessors and no successors |
| CfgNode.BlockCFGNode.AddPredecessor | lib/BlockCFGNode.py:12-18 | the predecessor is keyed by its name; re-adding a name replaces the entry without growing the map |
| CfgNode.BlockCFGNode.AddSuccessor | lib/BlockCFGNode.py:20-34 | the successor is keyed by its name, after which `has_successor` of that name holds; predecessors are untouched |
| CfgNode.BlockCFGNode.GetName | lib/BlockCFGNode.py:57-62 | a node's name is its block's name |
| CfgNode.BlockCFGNode.GetOutputs | lib/BlockCFGNode.py:87-98 | the outputs are the definitions of the blocks newly marked seen plus every definition of the node's own block; `seen` only grows, within the graph's names |
| CfgNode.BlockCFGNode.GetInputsFrom | lib/BlockCFGNode.py:71-85 | every predecessor ends up in `seen`; the inputs are exactly the definitions of the blocks newly marked seen; with no predecessors the inputs are empty and `seen` is unchanged; the recursion terminates on cyclic graphs because `seen` grows within a finite name set |
| CfgNode.BlockCFGNode.GetInputs | lib/BlockCFGNode.py:64-69 | the inputs are the definitions of a set of reached blocks that includes every predecessor; a node with no predecessors has none |
| CfgNode.DefsNamedSingle | lib/BlockCFGNode.py:95-96 | with unique names, the definitions collected for one name are that block's definitions |
| Cfg.BlockNames | lib/CFG.py:13-14 | one name per block, in order |
| Cfg.Dedup | lib/CFG.py:13-14 | deduplication keeps exactly the elements of the list, each once (the node keys are the distinct block names) |
| Cfg.LastIndexOf | lib/CFG.py:14 | the position found is the last one carrying the name (a name's node wraps that block) |
| Cfg.NodeKeysAreNames | lib/CFG.py:13-14 | there is a node for a name iff some block carries it |
| Cfg.InstrEdges | lib/CFG.py:18-22 | the edges of one block are its `jmp`/`br` labels other than its own name; a jump without labels is a `KeyError` |
| Cfg.LabelEdges | lib/CFG.py:20-21 | a label becomes an edge iff it differs from the source block's name |
| Cfg.EdgeList | lib/CFG.py:16-23 | the only error the edge scan raises is `KeyError` |
| Cfg.EdgeListSpec | lib/CFG.py:16-23 | the scan succeeds iff every jump carries labels, and an edge is listed iff it is a jump label of its block other than the block's own name |
| Cfg.EdgeSourcesAreNames | lib/CFG.py:17-22 | every edge starts at some block's name |
| Cfg.NoSelfLoop | lib/CFG.py:21 | no node is its own successor |
| Cfg.JumpLabelIsSuccessor | lib/CFG.py:17-22 | every label of any `jmp`/`br` of a block, other than the block's own name, is a successor of it |
| Cfg.SuccessorIsJumpLabel | lib/CFG.py:18-22 | every successor comes from a `jmp`/`br` label, so there are no fall-through edges |
| Cfg.Targets | lib/CFG.py:22 | a node's successors are the targets of its edges, each once |
| Cfg.Sources | lib/CFG.py:23 | a node's predecessors are the sources of the edges into it, each once |
| Cfg.EdgesSymmetric | lib/CFG.py:22-23 | `t` is a successor of `s` iff `s` is a predecessor of `t` |
| Cfg.Lookup | lib/CFG.py:22-23 | the recorded neighbours are the nodes stored under the given names, in order |
| Cfg.NodeAt | lib/CFG.py:14 | the node stored under a name carries that name |
| Cfg.CFG.constructor | lib/CFG.py:10 | a graph holds the given nodes |
| Cfg.CFG.MakeNodes | lib/CFG.py:12-14 | one fresh edgeless node per distinct block name, stored under its own name and wrapping the last block with that name |
| Cfg.CFG.AddEdges | lib/CFG.py:16-23 | the edge loop succeeds iff every target names a node; then each node's successors and predecessors are exactly the targets and sources of its edges |
| Cfg.CFG.RecordSuccessor | lib/CFG.py:22 | one edge adds its target to its source's successors, leaving predecessors alone |
| Cfg.CFG.RecordPredecessor | lib/CFG.py:23 | one edge adds its source to its target's predecessors, leaving successors alone |
| Cfg.CFG.Build | lib/CFG.py:5-23 | construction fails with `KeyError` exactly when the scan fails or a label names no block; otherwise there is one node per name and the edges are recorded symmetrically |
| Dataflow.UnionKeys | lib/Worklist.py:11-22 | the union's keys are the union of the inputs' keys |
| Dataflow.UnionLastWins | lib/Worklist.py:11-22 | each key takes its value from the last map that holds it |
| Dataflow.Union | lib/Worklist.py:11-22 | the loop computes the union (the lab-4 copy, L4/Worklist.py:6-17, is the same loop) |
| Dataflow.UsesIff | lib/Worklist.py:24-37 | `x` is a use iff some instruction reads it while no earlier instruction wrote it; an instruction reading and writing `x` counts as a use |
| Dataflow.Uses | lib/Worklist.py:24-37 | the loop computes exactly the uses (the lab-4 copy, L4/Worklist.py:34-47, is the same loop) |
| Dataflow.DestSetAppend | lib/Worklist.py:34-35 | each instruction's destination is added to the written set |
| Dataflow.CpropUnionSpec | lib/Worklist.py:39-50 | a key is present iff some map holds it; a key on which all maps agree keeps that value; any disagreement gives `"?"` |
| Dataflow.ConflictFree | lib/Worklist.py:39-50 | a value other than `"?"` means every map holding the key agreed on it |
| Dataflow.CpropUnion | lib/Worklist.py:39-50 | the loop computes the constant-propagation union |
| Dataflow.CpropMergeLoop | lib/Worklist.py:58-63 | merging one map keeps agreeing keys, adds new ones and marks conflicts `"?"` |
| Dataflow.CpropPair | lib/Worklist.py:52-65 | `cprop_transfer` of a block's values and the merged values is the conflict-marking union of the two |
| Dataflow.CpropTransfer | lib/Worklist.py:52-65 | the two loops compute that union |
| Dataflow.CpropTransferFacts | lib/Worklist.py:52-65 | the keys are block ∪ merged; a block value survives when merged lacks the key or agrees, a merged-only key is copied, and a conflict gives `"?"` |
| Dataflow.ZipIndex | lib/Worklist.py:76 | the used variables map to their positions in the iteration order |
| Dataflow.TransferLive | lib/Worklist.py:68-85 | the output keys are (input keys − block definitions) ∪ uses; inputs that are neither defined nor used keep their values (the lab-4 copy, L4/Worklist.py:20-31, is the same function) |
| Dataflow.LiveKeys | lib/Worklist.py:75-83 | with the uses as the order, the live output's keys are (inputs − definitions) ∪ `uses(block)` |
| Dataflow.TransferReaching | lib/Worklist.py:87-103 | the output is the inputs overridden by the block's annotated definitions |
| Dataflow.TransferDefined | lib/Worklist.py:114 | in `defined` the incoming values override the block's annotated definitions |
| Worklist.View | lib/Worklist.py:145-154 | the solver sees each node's name, instructions and predecessor names, in node order |
| Worklist.ViewOfBuilt | lib/CFG.py:10-23 | the solver's view of a constructed CFG is the graph built from the block list and its edge list |
| Worklist.GraphOfDistinct | lib/CFG.py:13-14 | the nodes of a constructed CFG have distinct names |
| Worklist.Init | lib/Worklist.py:145-148 | every node gets an empty input and output map, and the queue holds every node in order |
| Worklist.PredValues | lib/Worklist.py:154 | the predecessor outputs are listed in predecessor order; an unknown predecessor is a `KeyError` |
| Worklist.StepSpec | lib/Worklist.py:150-166 | one iteration fails iff a predecessor has no output; a node without predecessors merges `[{}]`; the input gains the merged keys; the output is replaced; the node is re-appended iff its output changed |
| Worklist.StepInputsGrow | lib/Worklist.py:159 | input maps only gain keys |
| Worklist.RunSpec | lib/Worklist.py:150-166 | the loop either stops with an empty queue, tables covering every node and inputs that only grew, or fails with `KeyError` or runs out of fuel |
| Worklist.AnswerSpec | lib/Worklist.py:168 | both tables have one entry per node, and the pair is swapped when `inverse` is set |
| Worklist.Solve | lib/Worklist.py:150-166 | the queue loop computes the run from the initial state |
| Worklist.Iterate | lib/Worklist.py:151-166 | one loop iteration is one step |
| Worklist.Worklist | lib/Worklist.py:129-168 | the solver builds the CFG (a `KeyError` when that fails), switches directions when `inverse` is set, runs the queue and returns the (possibly swapped) pair (the lab-4 solver, L4/Worklist.py:50-86, is the same loop with merge and transfer passed in) |
| Worklist.MethodsSpec | lib/Worklist.py:106-127 | only `live` is inverse; only `cprop` merges with the conflict-marking union; `reaching` lets the block's definitions win, `defined` lets incoming values win, `live` keeps (inputs − definitions) ∪ uses, and `cprop` yields full definitions ∪ inputs (the lab-4 `defined` and `live` entries, L4/Worklist.py:89-101, are the same) |
| Loops.DefsOfSpec | lib/Loop.py:19-31 | a pair is listed iff it is `(v, i)` for a loop instruction `i` writing `v` |
| Loops.DefsOfAppend | lib/Loop.py:25-30 | definitions are listed in block-then-instruction order |
| Loops.ArgInvariantIff | lib/Loop.py:42-54 | an argument passes iff it has at most one definition in the loop and every such definition is marked |
| Loops.TwoDefs | lib/Loop.py:53-54 | two writes of an argument in the loop give two or more definitions |
| Loops.DefsDistinctPositions | lib/Loop.py:53-54 | two or more definitions come from two distinct positions |
| Loops.UnmarkedMono | lib/Loop.py:63-77 | a pass that marks something strictly lowers the number of unmarked instructions, which bounds the outer loop |
| Loops.ProgressMark | lib/Loop.py:74-77 | marking a candidate that is invariant in the current body flags it, appends it to the invariants and extends the marking trace by that one step |
| Loops.ReplayStep | lib/Loop.py:70-77 | a replayed marking order extended by one more candidate that is invariant in the body reached so far is again a replay, ending in the body with that instruction flagged and the list with it appended |
| Loops.ReplayAppend | lib/Loop.py:63-77 | two marking orders replayed one after the other form one replay from the first body to the last, whose list is the two lists joined |
| Loops.ReplayLength | lib/Loop.py:76 | a replay appends exactly one instruction per marking step |
| Loops.MarkedNothing | lib/Loop.py:58-77 | a marking run that appends nothing to the list leaves the body exactly as it was |
| Loops.SelfReadNeverMarked | lib/Loop.py:42-56 | `x = id x` alone in a loop is never marked: no marking order turns `[[x]]` into the flagged block with list `[x]`, because its only argument is defined in the loop by an unmarked instruction |
| Loops.ProgressRefl | lib/Loop.py:63-77 | doing nothing is progress: same body, same list, the empty marking order |
| Loops.ProgressTrans | lib/Loop.py:63-77 | progress composes: two runs of marking one after the other are one run whose marking order is the two orders joined |
| Loops.PreheadName | lib/Loop.py:86 | a preheader name is `prehead` followed by the index |
| Loops.PreheadNamesDiffer | lib/Loop.py:86-88 | different indices give different preheader names |
| Loops.Loop.constructor | lib/Loop.py:13-17 | a new loop has its blocks and no invariants |
| Loops.Loop.Body | lib/Loop.py:25-26 | the loop's body is its blocks' instruction lists |
| Loops.Loop.GetAllDefinitions | lib/Loop.py:19-31 | the nested loop computes the definitions of `v` |
| Loops.Loop.IsLoopInvariant | lib/Loop.py:34-56 | the result is true iff every argument has no definition in the loop or a single marked one |
| Loops.Loop.MarkInvariants | lib/Loop.py:58-77 | marks are only added; the list keeps its old prefix and grows by exactly the instructions marked, in marking order, each an unmarked candidate that was invariant in the body at the moment it was marked (a replayed order, `MarkedInOrder`); the loop stops at a fixpoint where no unmarked candidate is invariant |
| Loops.Loop.MarkPass | lib/Loop.py:66-77 | one pass marks along a replayable order of invariant candidates and reports a change iff it marked something; a pass without change leaves a fixpoint |
| Loops.Loop.MarkBlock | lib/Loop.py:69-77 | one block's scan marks along a replayable order of invariant candidates; without change no candidate of the block is invariant |
| Loops.Loop.Visit | lib/Loop.py:70-77 | one instruction is marked iff it is an unmarked candidate invariant in the current body; then exactly it is flagged and appended, else nothing changes |
| Loops.Loop.Mark | lib/Loop.py:75 | marking flags exactly that instruction and nothing else in the body |
| Loops.Loop.CreatePreheaderBlock | lib/Loop.py:79-97 | the label `prehead{N}` is inserted at the front of the invariant list itself, which then is non-empty (`has_invariants`); the new block holds that very list, so every earlier preheader of the loop shows it too; the block is named by the label and recorded among the loop's preheaders, and `PREHEAD_IDX` grows by one while the block counter does not move |
| LoopPasses.Strip | lib/LoopPass.py:45-49 | the refined block keeps exactly the unflagged instructions |
| LoopPasses.Retarget | lib/LoopPass.py:39-41 | a successful retarget keeps the block's name and length and changes only its last instruction |
| LoopPasses.RetargetLast | lib/LoopPass.py:40-41 | after retargeting, a last instruction whose op contains `jmp` has the preheader name as its first label |
| LoopPasses.AddPreheaderShape | lib/LoopPass.py:33-43 | a header with invariants gets a new preheader after the retargeted previous output block; the loop's list gains the label; the preheader index grows |
| LoopPasses.LayoutStep | lib/LoopPass.py:31-51 | each input block contributes one refined block, preceded by a preheader exactly when it heads a loop with invariants |
| LoopPasses.RewriteKept | lib/LoopPass.py:29-51 | a successful rewrite places a preheader exactly before each header with invariants, keeps the blocks in order with their unflagged instructions (up to a retargeted last jump), keeps flagged instructions only in preheaders, and builds each preheader starting with its own label after a retargeted jump (the blocks may later show a longer list, see `LoopPasses.RewriteShared`) |
| LoopPasses.HeaderFirstFails | lib/LoopPass.py:39 | a header with invariants as the very first block has no previous output block, so the rewrite raises `IndexError` |
| LoopPasses.RewriteErrors | lib/LoopPass.py:29-51 | the rewrite only raises `IndexError` or `KeyError` |
| LoopPasses.FailureSticks | lib/LoopPass.py:29-51 | once a block raises, the pass raises that error |
| LoopPasses.Views | lib/LoopPass.py:51 | the rewrite sees each output block's name and instructions |
| LoopPasses.Shared | lib/Block.py:10 | a preheader block keeps its loop's own list object, so the output shows every preheader with its loop's current list; the view has one block per emitted block |
| LoopPasses.RewriteOwned | lib/LoopPass.py:29-51 | along the rewrite, the preheaders are the flagged positions; each, as built, ends its loop's current list, and the last one built for a loop holds the whole list |
| LoopPasses.RewriteShared | lib/LoopPass.py:29-51 | after a successful rewrite, a non-preheader block is shown as emitted; a preheader keeps its name and shows its loop's final list, which ends with the preheader as built; a loop's last preheader is shown exactly as built |
| LoopPasses.RewriteOwners | lib/LoopPass.py:29-51 | with distinct block names, every preheader belongs to a loop named by some input block and no two preheaders belong to the same loop |
| LoopPasses.DistinctNamesUnshared | lib/LoopPass.py:29-51 | with distinct block names, the shared view is exactly the emitted output: no preheader is relabelled later |
| LoopPasses.SharedRefinement | lib/LoopPass.py:45-51 | a refined block belongs to no loop, so it is shown as emitted and the earlier blocks keep their view |
| LoopPasses.SharedPreheader | lib/LoopPass.py:33-43 | after relabelling the loop's list, attaching the preheader raises exactly when the preheader step does, with the same error, and otherwise yields the shared view of that step's output |
| LoopPasses.SharedRelist | lib/LoopPass.py:36 | changing one loop's list changes the view of exactly that loop's preheaders |
| LoopPasses.OwnedBlocksIn | lib/Loop.py:85-90 | for distinct blocks, a block is among a loop's preheaders iff its position was built for that loop, and every preheader is an output block |
| LoopPasses.GrownTrans | lib/Loop.py:76 | the invariant lists only grow, by marked instructions |
| LoopPasses.GetDistinct | lib/LoopPass.py:33 | different headers hold different loop objects |
| LoopPasses.LoopPass.constructor | lib/LoopPass.py:5-9 | the pass holds the blocks and the loops found, keyed by header name |
| LoopPasses.LoopPass.Inputs | lib/LoopPass.py:29 | the rewrite reads each input block's name and instructions, in order |
| LoopPasses.LoopPass.Invs | lib/LoopPass.py:35 | one invariant list per loop header |
| LoopPasses.LoopPass.MarkOne | lib/LoopPass.py:17-19 | marking one loop reports whether it has invariants; its list only grows, by exactly the instructions marked in a replayable order of invariant candidates, ending at a fixpoint; every loop block only has candidates flagged, none changes when the list does not grow, and every block outside the loop keeps its instructions (`MarkStep`); the other loops' lists are left alone |
| LoopPasses.LoopPass.MarkAll | lib/LoopPass.py:16-19 | after marking every loop in dictionary order (`Marked`), `no_invariants` holds iff no loop has invariants; the loop blocks went through the states `snaps`, from before to now, loop `i` taking them from `snaps[i]` to `snaps[i + 1]` and changing only its own blocks, from the body `marks[i].0` read in `snaps[i]` to the body `marks[i].1` read in `snaps[i + 1]` (`MarkChain`); each loop (`LoopMarked`) is marked from a body that differs from its original one only by flagged candidates (the first loop from its original body itself), its list grows by exactly the instructions marked from there in a replayable order, and it ends at a fixpoint; every loop block only has candidates flagged, none changes when no loop has invariants, and no preheader list is touched |
| LoopPasses.LoopPass.MarkTurn | lib/LoopPass.py:17-19 | one turn of the marking loop extends the chain of states by the marked loop's step, its list by what it marked, and `no_invariants` by `not loop.has_invariants()` |
| LoopPasses.MarkedRun | lib/LoopPass.py:16-19 | a whole marking chain, started from the original loop blocks, marks each loop from its original body with only candidates flagged, to a fixpoint; every loop block only has candidates flagged; no list grows iff `no_invariants`, and then no block changed |
| LoopPasses.MarkStepMarked | lib/Loop.py:58-77 | a loop's turn that only flags candidates of its own body only flags candidates of the loop blocks |
| LoopPasses.MarkChainAnchored | lib/LoopPass.py:17-18 | loop `i` is marked from its original body with only candidates flagged by the loops before it |
| LoopPasses.LoopPass.MarkInputs | lib/LoopPass.py:16-19 | the marking loop, stated as `MarkedThen` of the lists and input blocks it leaves; `no_invariants` iff no list has invariants, and then no block changed |
| LoopPasses.LoopPass.MarkedNow | lib/LoopPass.py:16-29 | right after marking, the input blocks are the old ones with the loop blocks read from the last state (`Reread`), each only having candidates flagged; the lists are the current ones |
| LoopPasses.LoopPass.InputsReread | lib/LoopPass.py:29 | marking leaves the input blocks outside the loops as they were, so the inputs are the loop blocks read anew |
| LoopPasses.ReinsertStrip | lib/LoopPass.py:45-51 | putting a block's own unflagged instructions back into it gives the block back |
| LoopPasses.StripReinsert | lib/LoopPass.py:45-51 | putting unflagged instructions back in place of a block's unflagged ones, position by position, makes them exactly its unflagged instructions |
| LoopPasses.ReinsertFlagged | lib/LoopPass.py:45-49 | putting instructions back leaves the flagged ones where they were |
| LoopPasses.RewriteSynced | lib/LoopPass.py:39-51 | along the rewrite, each input block shows exactly its refined block's instructions where unflagged (`Synced`), and differs from the input only by a retargeted last jump (`Retargeted`) |
| LoopPasses.SyncedStep | lib/LoopPass.py:39-51 | one more block changes the synced inputs only at input block `i - 1`, which takes the retargeted instructions of its refined block |
| LoopPasses.LoopPass.ShareBack | lib/LoopPass.py:39-41 | the refined block's instructions go back into input block `k`, since the jump retargeted through the refined block is the input block's own instruction; no other input block and no output block changes |
| LoopPasses.LoopPass.Resync | lib/LoopPass.py:39-51 | after one iteration the input blocks are synced with the new output, as `SyncedStep` states |
| LoopPasses.LoopPass.RewriteStep | lib/LoopPass.py:29-51 | one iteration of the block loop: the output of the first `i + 1` steps, or the pass's error with the input blocks untouched, and on success the input blocks synced with the new output |
| LoopPasses.LoopPass.NoInvariantsAll | lib/LoopPass.py:16-22 | the table of lists has no invariants iff no loop has any |
| LoopPasses.LoopPass.Refine | lib/LoopPass.py:45-49 | the refining loop computes the stripped block |
| LoopPasses.LoopPass.AppendBlock | lib/LoopPass.py:45-51 | the refined block is appended as a new block, as the refinement step says, advancing the block counter as it does; the blocks keep showing each loop's current list |
| LoopPasses.LoopPass.RetargetBlock | lib/LoopPass.py:39-41 | the previous block's last jump is retargeted in place, or the same error is raised |
| LoopPasses.LoopPass.NewPreheader | lib/LoopPass.py:36 | the preheader is a fresh block `prehead{N}` holding the loop's list, which now starts with that label; the earlier blocks then show the relabelled list wherever they are that loop's preheaders |
| LoopPasses.LoopPass.Relist | lib/LoopPass.py:36 | building a loop's preheader relabels that loop's list in place: the loop records the new block, and the blocks that are its earlier preheaders now show the new list |
| LoopPasses.LoopPass.AttachBlock | lib/LoopPass.py:39-43 | the preheader is appended after retargeting the previous block, or the retargeting error is raised; the result is what `Attach` gives on the blocks' view |
| LoopPasses.LoopPass.PreheaderBlock | lib/LoopPass.py:33-43 | the method raises exactly when the preheader step does, with the same error; otherwise the blocks show that step's output with each preheader holding its loop's current list (`Shared`), and the counters match |
| LoopPasses.LoopPass.EmitBlock | lib/LoopPass.py:29-51 | one iteration of the block loop raises exactly when one step does; otherwise the blocks show that step's output with the lists shared, and the counters match |
| LoopPasses.LoopPass.RewriteBlock | lib/LoopPass.py:29-51 | after block `i` the output blocks show the output of the first `i + 1` steps with each preheader holding its loop's current list, and an error is the whole pass's error; the input blocks are not touched here |
| LoopPasses.LoopPass.Rewrite | lib/LoopPass.py:25-53 | the block loop produces the output blocks of the rewrite, each preheader holding its loop's final list (`Follows`), or its error; on success the input blocks end as `Synced` says, the unflagged instructions of each one's refined block put back in place of its own unflagged ones, and in any case they differ from before only in the labels of a retargeted last jump (`Retargeted`) |
| LoopPasses.LoopPass.ExecutePass | lib/LoopPass.py:11-53 | with no loops, or no loop with invariants, the original blocks come back with their contents unchanged; otherwise marking did what `MarkedThen` says: the loop blocks went through the states `snaps` as `MarkAll` states, the lists grew to `invs`, and the rewrite read the input blocks `ins`, which are the loop blocks as the last state `snaps[|loops|]` holds them and the other blocks as they were (`Reread`), each keeping its name and only having candidates flagged; the result is the rewrite of `ins` from the lists `invs`, each preheader showing its loop's final list, and the input blocks end retargeted as `Rewrite` states |
| SsaNames.Version | L6/ssa.py:38 | a version is the variable, a dot, then decimal digits |
| SsaNames.VersionInjective | L6/ssa.py:38 | different (variable, counter) pairs give different versions |
| SsaNames.Push | L6/ssa.py:32-42 | push returns `v.k` with `k` the number of earlier pushes of `v`, puts it on top of `v`'s stack and increments `v`'s counter, leaving other variables alone |
| SsaNames.Peek | L6/ssa.py:44-50 | peek succeeds iff the variable's stack is non-empty, and then returns its top (index 0) |
| SsaNames.PeekAfterPush | L6/ssa.py:39-50 | right after a push, peek returns the pushed version |
| SsaNames.PushFresh | L6/ssa.py:38-40 | a pushed version differs from every version handed out before |
| SsaNames.InitialStacks | L6/ssa.py:26 | the parameters, and only they, have stacks |
| SsaNames.InitialStacksPeek | L6/ssa.py:26 | a parameter peeks to itself and anything else is an `IndexError` |
| SsaNames.Tops | L6/ssa.py:91 | each argument becomes the top of its stack |
| SsaNames.RenameInstr | L6/ssa.py:89-94 | renaming fails iff some argument has no stack; otherwise only `args` and `dest` change |
| SsaNames.RenameInstrs | L6/ssa.py:89-94 | renaming a block keeps its length |
| SsaNames.RenameInstrsVersions | L6/ssa.py:89-94 | each renamed destination is a version of the original numbered between the counters on entry and exit, counters never decrease, and no two renamed destinations coincide |
| SsaNames.RenameInstrsSingleAssignment | L6/ssa.py:89-94 | a renamed block is in single-assignment form |
| SsaNames.DestAsWritten | L6/ssa.py:94 | as written, one push per character of the destination |
| SsaNames.DestSplitIntoCharacters | L6/ssa.py:94 | as written, `ab` becomes `["a.0", "b.0"]` and `ab` gets no stack; pushing the whole name gives `ab.0` |
| SsaNames.RestoreKeys | L6/ssa.py:87 | as written, the restore brings back the entry's key set but the grown lists |
| SsaNames.StaleSiblingTop | L6/ssa.py:110-111 | as written, a sibling still sees `x.1` pushed by an earlier sibling where the entry stack gives `x.0` |
| SsaPhi.Tag | L6/ssa.py:61-62 | each definition of a block is paired with the block's name |
| SsaPhi.SitesWitness | L6/ssa.py:60-62 | every (variable, block) site comes from a block defining the variable |
| SsaPhi.SitesComplete | L6/ssa.py:60-62 | every definition of every block is a site |
| SsaPhi.SitesOf | L6/ssa.py:62 | a variable's blocks are exactly the sites' blocks for it |
| SsaPhi.GroupSpec | L6/ssa.py:58-64 | grouping keeps keys unique; a variable is a key iff it has a site, and maps to its blocks in order |
| SsaPhi.AddDefinitions | L6/ssa.py:61-62 | the inner loop appends the block's name under each of its definitions |
| SsaPhi.DefsToBlocks | L6/ssa.py:52-64 | the loop computes the grouping of all sites, in block order |
| SsaPhi.DefsToBlocksSound | L6/ssa.py:58-64 | every listed block defines the variable |
| SsaPhi.DefsToBlocksComplete | L6/ssa.py:58-64 | every block defining a variable is listed under it |
| SsaPhi.SpreadFrom | L6/ssa.py:120-126 | the frontier loop adds `v` to the phis of each frontier block once, appends the frontier blocks not yet listed, and changes nothing else |
| SsaPhi.Spread | L6/ssa.py:117-126 | the growing list is derived from the definition blocks through frontiers and closed under them, every block on it has a frontier entry, and `v` gets a phi exactly in the frontier of a listed block; a block without a frontier entry is a `KeyError` |
| SsaPhi.InitPhiNodes | L6/ssa.py:113-128 | per variable the block list is closed under frontiers; a block holds a phi for `v` exactly when it is in the frontier of one of `v`'s listed blocks; no block holds a phi twice; a missing frontier entry is a `KeyError` |
| SsaPhi.SpreadClosed | L6/ssa.py:116-126 | the final list contains the definition blocks and is closed under dominance frontiers |
| SsaPhi.SpreadIsLeastClosed | L6/ssa.py:116-126 | it lies within every frontier-closed superset of the definition blocks, so it is the iterated dominance frontier plus those blocks |
| SsaPhi.NoMissingFrontier | L6/ssa.py:118 | a successful placement never reaches a block without a frontier entry |
| Ssa.PhiValue | L6/ssa.py:101-104 | a variable without a stack records `_undef_`; otherwise the top of its stack |
| Ssa.SuccessorSlots | L6/ssa.py:100 | the inner loop visits the successor's phis in order |
| Ssa.SlotsMembers | L6/ssa.py:99-100 | the visits are exactly the (successor, phi) pairs of the successors |
| Ssa.RecordFails | L6/ssa.py:99-104 | recording fails exactly when a visited phi's variable has a stack that is empty |
| Ssa.RecordAppends | L6/ssa.py:99-104 | otherwise each (block, variable) list gains one `(src, value)` per visit and no other list changes |
| Ssa.Repeat | L6/ssa.py:74 | repeated arguments, one per visit |
| Ssa.LastNamed | lib/CFG.py:13-14 | a name's node block is the last block with that name, and a name with no block has none |
| Ssa.Ssa.constructor | L6/ssa.py:11-27 | the parameters start as their own versions, with no counters and no phi arguments |
| Ssa.Ssa.StackPush | L6/ssa.py:32-42 | the method pushes as the specification does and hands out a version never issued before |
| Ssa.Ssa.StackPeek | L6/ssa.py:44-50 | the method peeks as the specification does |
| Ssa.Ssa.RenameOne | L6/ssa.py:89-94 | one instruction is renamed as the specification does, or `IndexError` is raised |
| Ssa.Ssa.RenameBlock | L6/ssa.py:89-94 | the block's instructions, stacks and counters become the specification's, or its error is raised; counters only grow and every version stays fresh |
| Ssa.Ssa.AddPhi | L6/ssa.py:66-74 | one argument `(src, top)` is appended to that block's phi, or `IndexError` is raised on an empty stack |
| Ssa.Ssa.AddUndefPhi | L6/ssa.py:76-84 | one argument `(src, "_undef_")` is appended |
| Ssa.Ssa.RecordPhis | L6/ssa.py:96-104 | the successor loop records as the specification does |
| Ssa.Ssa.Rename | L6/ssa.py:86-111 | renaming a block and, recursively, the blocks it dominates keeps the counters valid, hands out only fresh versions, only grows counters, and on success leaves the stacks as they were on entry |
| Ssa.Create | L6/ssa.py:11-30 | a successful construction yields a new SSA object over the same blocks with valid counters; with no blocks it fails |
| IsSsa.CheckSsa | L6/test/is_ssa.py:6-19 | the checker returns true iff no function assigns a destination twice |
| IsSsa.SingleAssignmentDests | L6/test/is_ssa.py:12-18 | a function is in SSA form iff its destination list has no duplicates |
| IsSsa.SingleAssignmentSnoc | L6/test/is_ssa.py:14-18 | one more instruction keeps SSA form iff its destination is new, and instructions without destination are ignored |
| IsSsa.ReassignmentIsNotSsa | L6/test/test_ssa.py:13 | a function assigning the same destination twice is not in SSA form |
| IsSsa.SameNameInTwoFunctions | L6/test/is_ssa.py:12 | the assigned set is reset per function: one name in two functions is allowed, but not twice in one |
| IsSsa.SsaFormAppend | L6/test/is_ssa.py:11-19 | a program is in SSA form iff each of its functions is; no functions is SSA |
| Dce.NextDef | L3/src/dce.py:32-45 | the next position defining `v` after `from`, or the end |
| Dce.LastDef | L3/src/dce.py:45 | the last position before `n` defining `v`, or −1 |
| Dce.DeadKeysIn | L3/src/dce.py:37-50 | an index is deleted in a round iff its definition is dead: redefined before any read of the variable, or never read after being the last definition |
| Dce.MarkUsed | L3/src/dce.py:28-30 | reading marks every argument used and keeps the other entries |
| Dce.MarkArgs | L3/src/dce.py:28-30 | after an instruction's reads, `used` holds exactly the variables read or defined so far, true exactly for those read |
| Dce.ScanEntry | L3/src/dce.py:23-45 | one instruction keeps the scan's `used`, `last_seen` and `delete` in step with the specification |
| Dce.ScanEntries | L3/src/dce.py:23-45 | the scan's tables describe the whole block |
| Dce.FlushName | L3/src/dce.py:48-50 | a never-read variable's last definition is added to the deletions |
| Dce.FlushAll | L3/src/dce.py:48-50 | the final loop adds every never-read variable's last definition |
| Dce.FlushEnd | L3/src/dce.py:47-50 | the deletions are exactly the dead indices, each once |
| Dce.Scan | L3/src/dce.py:20-50 | one round deletes exactly the dead indices, without duplicates |
| Dce.Without | L3/src/dce.py:52-53 | popping never grows the block |
| Dce.WithoutMembers | L3/src/dce.py:52-55 | an entry survives popping iff its index was not deleted |
| Dce.WithoutAscending | L3/src/dce.py:52-55 | popping keeps the order |
| Dce.WithoutShrinks | L3/src/dce.py:52-53 | popping a present index shrinks the block |
| Dce.PopAll | L3/src/dce.py:52-53 | the popping loop removes exactly the deleted indices |
| Dce.Rounds | L3/src/dce.py:19-55 | the rounds keep the positions ascending |
| Dce.ScanShrinks | L3/src/dce.py:19-22 | a round that deletes something shrinks the block, which bounds the rounds |
| Dce.RoundsSubset | L3/src/dce.py:19-55 | only instructions of the block survive |
| Dce.RoundsKeepDestless | L3/src/dce.py:32-50 | instructions without `dest` are never deleted |
| Dce.RoundsFixpoint | L3/src/dce.py:19-22 | the rounds stop when a round deletes nothing |
| Dce.DceBlock | L3/src/dce.py:14-55 | one block is rewritten to the specification's result |
| Dce.DcePass | L3/src/dce.py:7-57 | every block is replaced in place by its cleaned version |
| Dce.DceSubsequence | L3/src/dce.py:52-55 | the result is the block at the surviving positions |
| Dce.DceKeepsOrder | L3/src/dce.py:17 | the surviving positions ascend, so the relative order is kept |
| Dce.DceKeepsDestless | L3/src/dce.py:32-50 | every instruction without `dest` survives |
| Dce.ReadOnceKeepsLaterDefinitions | L3/src/dce.py:37-42 | once a variable was read, later redefinitions are not deleted, because the used flag is never reset |
| Dce.UsedArgsWitness | L3/src/dce.py:68-75 | every used name is an argument in some block |
| Dce.UsedArgsComplete | L3/src/dce.py:68-75 | every argument in any block is used |
| Dce.Sweep | L3/src/dce.py:79 | the sweep never grows a block |
| Dce.SweepMembers | L3/src/dce.py:79 | an instruction survives iff it has no `dest` or its `dest` is read somewhere |
| Dce.SweepSame | L3/src/dce.py:78-81 | a sweep that keeps the length keeps the block |
| Dce.TotalShrinks | L3/src/dce.py:77-81 | the total size never grows, and stays only when no block shrank |
| Dce.TrivialDce | L3/src/dce.py:65-83 | the corrected pass keeps the number of blocks |
| Dce.TrivialDcePass | L3/src/dce.py:59-83 | the blocks are replaced in place by the corrected pass's result |
| Dce.SweepRound | L3/src/dce.py:67-81 | one round is the sweep of all blocks; without any shrinking it is the fixpoint, otherwise the total size drops |
| Dce.SweepEach | L3/src/dce.py:77-81 | each block is swept in place; `changed` holds iff some block shrank |
| Dce.CollectUsed | L3/src/dce.py:68-75 | the used set is every argument of every block |
| Dce.MarkBlock | L3/src/dce.py:71-75 | one block's arguments are added to the used set |
| Dce.TrivialDceFixpoint | L3/src/dce.py:67 | at the end every destination is read somewhere |
| Dce.TrivialDceKeepsDestless | L3/src/dce.py:79 | instructions without `dest` survive |
| Dce.TrivialDceSpinsOnNoBlocks | L3/src/dce.py:65-81 | as written, with no blocks `changed` is never reset and the loop never ends |
| Dce.TrivialDceStopsEarly | L3/src/dce.py:77-81 | as written, `changed` reflects only the last block, so a dead definition left in an earlier block survives |
| Lvn.Insert | L3/src/lvn.py:38 | insertion keeps the list sorted and adds exactly one element |
| Lvn.Sort | L3/src/lvn.py:38 | `sorted` returns a sorted permutation |
| Lvn.SortedUnique | L3/src/lvn.py:38 | two sorted permutations of one list are equal |
| Lvn.SortPermutation | L3/src/lvn.py:37-38 | commutative operands in any order sort to the same list |
| Lvn.BelowTotal | L3/src/lvn.py:38 | string order is total |
| Lvn.BelowTrans | L3/src/lvn.py:38 | string order is transitive |
| Lvn.BelowAntisym | L3/src/lvn.py:38 | string order is antisymmetric |
| Lvn.FreshValid | L3/src/lvn.py:17-21 | the fresh tables each block starts from (empty, id 1) satisfy the table invariant |
| Lvn.Number | L3/src/lvn.py:44-53 | after numbering, the expression and the destination share one id |
| Lvn.NumberRepeat | L3/src/lvn.py:45-46 | a repeated expression maps the destination to its existing id and allocates none |
| Lvn.NumberNew | L3/src/lvn.py:48-53 | a new expression takes the next id, the id grows by exactly one, and earlier entries are kept |
| Lvn.NumberCanonical | L3/src/lvn.py:49 | a new expression's canonical variable is its destination |
| Lvn.KeyOf | L3/src/lvn.py:30-42 | the expression key needs the op (else `KeyError`) and carries it |
| Lvn.Step | L3/src/lvn.py:27-53 | one instruction keeps the tables valid; an instruction without value and args gives its destination a fresh number of its own |
| Lvn.StepShape | L3/src/lvn.py:27-53 | only `args` may change, keeping its length, and only for computed instructions |
| Lvn.StepRewritesArgs | L3/src/lvn.py:37-41 | commutative args are sorted first; args with a number become that number's canonical variable, the others stay |
| Lvn.CommutativeSameKey | L3/src/lvn.py:37-42 | commutative instructions with the same operands in any order have the same key |
| Lvn.RepeatTakesNumber | L3/src/lvn.py:45-46 | a repeated expression only rebinds the destination |
| Lvn.StepUnknownFresh | L3/src/lvn.py:27-53 | every destination gets a number; one without value and args gets the next number, which no other variable and no computed expression holds, and the counter advances |
| Lvn.RunBlock | L3/src/lvn.py:15-53 | a block keeps its length |
| Lvn.RunBlockShape | L3/src/lvn.py:14-53 | no instruction is added or removed, destinations never change, and only args of computed instructions are rewritten |
| Lvn.RunBlockErrAt | L3/src/lvn.py:31 | an instruction with a value or args but no op fails the block |
| Lvn.RunBlockErrWitness | L3/src/lvn.py:31-35 | a failing block has such an instruction, and the error is a `KeyError` |
| Lvn.Lvn | L3/src/lvn.py:14-54 | the pass keeps the number of blocks |
| Lvn.LvnBlockResult | L3/src/lvn.py:14-21 | each block is numbered from fresh tables, independently of the others |
| Lvn.LvnBlocksOk | L3/src/lvn.py:14-54 | the pass succeeds when every block does |
| Lvn.LvnBlock | L3/src/lvn.py:15-53 | the instruction loop computes the block's specification |
| Lvn.NumberInstr | L3/src/lvn.py:27-53 | one iteration updates the tables as the specification does |
| Lvn.ExprOf | L3/src/lvn.py:30-42 | the expression key and rewritten instruction are the specification's |
| Lvn.LvnPass | L3/src/lvn.py:8-54 | every block is rewritten in place, or the error is returned |
| Lvn.StepAsWritten | L3/src/lvn.py:27-53 | the as-written step, which carries the previous `expr` along, keeps the tables valid |
| Lvn.RunBlockAsWritten | L3/src/lvn.py:23-53 | as written, the block loop keeps the tables valid |
| Lvn.StaleExprUnbound | L3/src/lvn.py:30-45 | as written, a first `call` with a destination raises `UnboundLocalError` |
| Lvn.StaleExprShared | L3/src/lvn.py:30-53 | as written, `x = call` after `a = const 1` gets `a`'s value number |
| Lvn.StaleExprCorrected | L3/src/lvn.py:30-53 | corrected, `[[x = call]]` passes unchanged, and after `a = const 1` the call result `x` gets a number different from `a`'s |
| Lvn.CallResultRenumbered | L3/src/lvn.py:30-53 | corrected, in `y = add x x; x = call; z = add x x` the second sum is not given `y`'s number, since `x` was overwritten by the call |
| Lvn.KeyOfTwin | L3/src/lvn.py:36-42 | a commutative op on `[v, v]` keys on two references to `v` and rewrites both arguments to `v`'s canonical variable |

## Left out

- The `__main__` drivers, the Bril parser call through `subprocess`, and the test harnesses that load JSON fixtures are I/O. The tests only serve as evidence for the lemmas named above.
- Dominators, dominance frontiers, immediate dominators, `find_loops`, `switch_directions`, `add_terminators`, `get_annotated_definitions` and `get_full_definitions` are called by the core but not defined in it. The model takes their results as parameters: the `df` and `domtree` maps of the SSA model, the loop dictionary of `LoopPass`, a `switch` function, and the `Oracle` of `Worklist`. Definition objects (`lib/Definition.py`) are not part of this model.
- Ssa.Ssa.Rename: the successor lists come in as a `succs` map. In the source they come from the function's `CFG` (`L6/ssa.py:13`, `:97`), which `Cfg.CFG.Build` models; the SSA model does not build that CFG itself.
- The `cprop` entry of the lab-4 `methods` table calls `union` on a node object and cannot run; it is not modelled.
- The iteration order of the Python `set` returned by `uses` is an input (`Oracle.order`), because `transfer_live` numbers the uses in that order.
- Worklist.RunSpec: the solver runs on a fuel bound and may stop with `OutOfFuel`. It re-enqueues only the changed node itself, so no global fixpoint or termination is claimed.
- Ssa.Ssa.Rename: the recursion depth is a parameter standing for the interpreter's recursion limit. The contract does not claim whole-function SSA form for the renamed program. It states per-block single assignment (`SsaNames.RenameInstrsSingleAssignment`) and that every pushed version is new.
- Ssa.Ssa.Rename: on an error the state left behind is not described. The Python program aborts there.
- Ssa.Ssa.Rename: the contract does not name its error kinds. The body returns `KeyError` for a name missing from the successors, the dominator tree or the CFG, and a recursion error when the depth runs out.
- Ssa.Create: `phi_args` is a flat map keyed by (block, variable), not a nested `defaultdict`. The contract states only freshness and validity; what renaming computes is stated by the members it calls.
- `L6/ssa.py:62` calls `.get_name()` on definitions, but `lib/Block.py:29` returns plain strings. The model uses the strings themselves as the variable names.
- LoopPasses.LoopPass.ExecutePass: the loops are taken as distinct objects keyed by header name, no loop lists a block twice, and no loop has built a preheader yet. This is what a fresh `find_loops` is expected to return.
- LoopPasses.LoopPass.ExecutePass: the contract relates the output to the specification's view (names and instructions). It does not claim object identity of the unchanged blocks.
- LoopPasses.LoopPass.ExecutePass: the input list is taken to hold each block object once (`DistinctBlocks`), as a list built from fresh `Block` objects does. Instruction dictionaries are values: the sharing between a refined block and its input block (`lib/LoopPass.py:45-51`) is modelled by writing the refined block's instructions back (`ShareBack`), not by aliasing.
- LoopPasses.LoopPass.Rewrite: when the rewrite raises, the input blocks are only claimed `Retargeted`; how many earlier jumps were already retargeted is stated by `RewriteStep` per iteration, not by the method's contract.
- Dce.DceBlock: the iteration order of the `used` dictionary in the flush loop is abstracted. Only the resulting set of deleted indices is stated, and that set does not depend on the order.
- Lvn.Step: expression keys are compared as values rather than through `str(expr)`. The two agree for the literal and argument keys the block can build.
- Lvn.Step: the model does not claim that value numbering preserves program semantics. The pass rewrites arguments to canonical variables that later instructions may overwrite.
- Lvn.Canon: a canonical-variable lookup assumes the tables are valid, which every reachable state is.
- Worklist.Worklist: `input` and `output` are Dafny maps. Their key order, which Python prints, is not modelled.
- Floating-point literals and Bril types are not modelled. A literal is an integer or a boolean.

## Findings

| source | as written | input that shows it | evidently intended | confidence | as-written member | corrected member |
|---|---|---|---|---|---|---|
| L6/ssa.py:94 | `for v in instr["dest"]` iterates the characters of the destination string and pushes each one | an instruction with `dest = "ab"` is renamed to `["a.0", "b.0"]`, and `ab` itself never gets a stack | push the whole destination once, giving `ab.0` | high, not executed | SsaNames.DestSplitIntoCharacters | Ssa.Ssa.RenameOne |
| L6/ssa.py:87 | `tmp` is a shallow copy, so restoring it brings back the key set but the same lists, which the pushes grew in place | a block defining `x` (`x.0`) dominating two siblings, the first of which redefines `x`: the second still sees `x.1` | restore each stack's contents, so the second sibling sees `x.0` | high, not executed | SsaNames.StaleSiblingTop | Ssa.Ssa.Rename |
| L3/src/dce.py:77-81 | `changed` is overwritten by each block, and stays `True` when there are no blocks | blocks `[[a = const 1; b = id a], [nop]]` stop after one round with the dead `a` left; with `[]` the loop never ends | repeat while any block shrank | high, not executed | Dce.TrivialDceStopsEarly | Dce.TrivialDcePass |
| L3/src/lvn.py:30-53 | `expr` is only assigned for instructions with a value or args, yet used for every instruction with a destination | `[[x = call]]` raises `UnboundLocalError`; after `a = const 1`, `x = call` gets `a`'s number | give such a destination a new value number of its own | high, not executed | Lvn.StaleExprShared | Lvn.StaleExprCorrected |
