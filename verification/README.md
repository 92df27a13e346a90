# Proofs about the SSA middle end and the graph analyses of staticcheck

This project models, in Dafny, the algorithmic core of the Go tools in this repository and proves
what that core is for. Every theorem is about all inputs the code accepts, all paths or all
schedules; none fixes a size or a bound.

| area | files | main results |
|---|---|---|
| walks and dominance | `Paths`, `Flowgraphs` | dominance, immediate dominators and reachability, defined by walks alone |
| dominator tree | `Semidominators`, `LengauerTarjan`, `DomTrees` | Lengauer–Tarjan with one-slot buckets computes immediate dominators; numbered queries and the Kildall check agree with the definition |
| lifting to registers | `DomFrontiers`, `Lifting`, `LiftingProof`, `Referrers`, `Renaming`, `DeadPhis`, `LiftFunction` | exact dominance frontiers, iterated phi placement, in-place renaming, dead-phi removal; the whole pass preserves what every run observes and keeps the referrer lists exact |
| block clean-up | `Cfgs`, `BlockPasses`, `BlockOpt`, `Pipeline` | optimizeBlocks terminates, keeps the graph well formed and executes the same instructions with the same phi choices for every branch behaviour |
| lowering of control flow | `LoweringModel`, `LoweringCode`, `Statements`, `Switches`, `Lowering` | the code built for conditions, reified `&&`/`\|\|`, `if` and `switch` does what the source means |
| value range propagation | `Scc`, `Intervals`, `Widening`, `Constraints`, `ConstraintRuns` | Tarjan components in topological order; exact interval arithmetic; exactly when the widening worklist ends; no execution of the code's own constraints leaves the ranges found |
| call graphs | `CallGraphs`, `Rta`, `RtaRuns` | wrapper deletion keeps exactly the routes through wrappers; rapid type analysis reports a call edge exactly if some execution makes the call |
| concurrent memo | `Descriptions` | in every interleaving each description is computed once, answers are right, nobody waits forever |
| natural loops, struct layout | `Loops`, `Layout` | loops are exact; the sorted field order gives the smallest struct |

Conventions. Blocks, functions, call graph nodes and edges, types and values are numbers (identities
instead of pointers). Objects that the source updates in place are classes; their slices and maps are
`seq` and `map` fields, and the renaming slice that is shared down the dominator tree is an `array`.
Specification functions and predicates are `ghost`. Opaque instructions report to the environment
through an oracle that may answer anything as a function of the whole history, so "the same history"
means that no environment can tell two programs apart.

Where the code and a comment disagree, the code is followed: the comment above `removeDeadPhis` says
that debug references do not keep a phi alive, while `phiHasDirectReferrer` counts every referrer that
is not a phi (ssa/lift.go:270-271, 332-342).

Findings about the code are stated as theorems.

- The simplifications of `logicalBinop` for an unreachable operand block can never apply, since `cond`
  always adds an edge to both targets (ssa/builder.go:141-153; `Lowering.Builder.Cond`, last clause).
- The worklist of a component need not end. Widening the empty range by a result such as [0, -∞],
  when some constant is not positive, reports a change and leaves the range empty
  (`Widening.SpinExact` says exactly when). The loop ends exactly if it does this only finitely often
  (`Widening.EndsIffSpinsStop`). It does not happen on components without `make`, nor on
  components with `make` whose given intervals keep clear of the wrong infinity
  (`Constraints.PeacefulEnds`). But
  `MakeSliceConstraint.Eval` sets a lower bound of 0 without normalising the interval, and there is a
  component of five constraints on which the loop never ends (`ConstraintRuns.SpinNeverEnds`). With the
  entries of the same component in the other order it does end (`ConstraintRuns.OrderDecides`), so the
  iteration order of a map decides.
- An inverted interval such as [0, -3], which the same constraint makes, can stretch a union beyond the
  members of its operands (`Intervals.UnionTooWide`), and the value of a phi can depend on the order of
  its operands (`Intervals.PhiOrderMatters`). `Intervals.UnionLeast` and `Intervals.PhiLeast` give the
  exact conditions under which both are the least interval.
- A conversion to a wider type takes its upper bound from its own target (staticcheck/vrp/int.go:394-418), so
  in a loop the target can stay behind its operand: on a component that counts up in 64 bits the loop
  ends with a range that an execution leaves (`ConstraintRuns.ConversionLoop`).
  `Constraints.ConversionSound` says exactly when the value of a conversion is large enough.
- `widen` ignores channels (staticcheck/vrp/vrp.go:776-778), so a component of channels can end with
  a constraint that does not hold (`ConstraintRuns.ChannelLoop`). A constraint on a channel that reads
  channels and outside variables holds at the end exactly if it held at the start
  (`Widening.ChannelsDecided`); constraints on all other targets hold when the loop ends.

## Model

| member | source | states |
|---|---|---|
| Semidominators.SemiIsAncestor | ssa/dom.go:111-117 | the semidominator of a vertex, defined by walks through higher-numbered vertices, is a proper ancestor of it in the search tree |
| Semidominators.DominatesIffNoBypass | ssa/dom.go:111-117 | a proper ancestor d dominates w exactly if no vertex between them has a semidominator above d |
| Semidominators.IdomIsSemi | ssa/dom.go:149-157 | if no vertex on the way from w up to its semidominator has a lesser one, the semidominator is the immediate dominator |
| Semidominators.SameIdom | ssa/dom.go:183-191 | otherwise w has the immediate dominator of the vertex on that way with the least semidominator, which step 4 copies |
| LengauerTarjan.LtState.Dfs | ssa/dom.go:79-92 | numbers everything that v leads to through unvisited blocks in preorder, records the tree parents and changes nothing numbered before |
| LengauerTarjan.LtState.Link | ssa/dom.go:107-109 | sets the ancestor of w and of no other block |
| LengauerTarjan.LtState.Eval | ssa/dom.go:95-104 | finds, among the vertices between v and the root of its linked tree, one with the least semidominator |
| LengauerTarjan.LtState.EmptyBucket | ssa/dom.go:149-157 | the chain threaded through the bucket array ends, and each block on it gets its dominator or the vertex that shares it |
| LengauerTarjan.LtState.ComputeSemi | ssa/dom.go:159-166 | the minimum over the predecessors is the semidominator as defined by walks |
| LengauerTarjan.LtState.SettleOrDefer | ssa/dom.go:170-175 | the block is settled if its semidominator is its parent, else it is put at the head of exactly one bucket chain |
| LengauerTarjan.LtState.SweepOne | ssa/dom.go:145-176 | one iteration in reverse preorder keeps all semidominators, links and bucket chains right |
| LengauerTarjan.LtState.Sweep | ssa/dom.go:145-176 | after the sweep every block but the roots is settled |
| LengauerTarjan.LtState.EmptyEntryBucket | ssa/dom.go:178-181 | the chain of the entry ends and its members get the entry as immediate dominator |
| LengauerTarjan.LtState.Finish | ssa/dom.go:183-195 | one pass in preorder makes all immediate dominators explicit and children their inverse |
| LengauerTarjan.BuildDomTree | ssa/dom.go:114-195 | every block but the entry and the recover block gets exactly its immediate dominator as defined by walks from the entry, and the children lists are the inverse without repeats |
| DomTrees.AboveIsDominance | ssa/dom.go:31-43 | being an ancestor in the tree is the same as dominating |
| DomTrees.DomNumbering.NumberDomTree | ssa/dom.go:214-223 | the numbers of a subtree are consecutive, and nested intervals mean ancestry within it |
| DomTrees.NumberFunction | ssa/dom.go:41-43 | comparing pre and post numbers decides dominance for all pairs of blocks; the recover block is dominated by itself alone |
| DomTrees.Round | ssa/dom.go:260-275 | a round keeps all dominators in the sets, and reports no change only at a fixed point |
| DomTrees.Kildall | ssa/dom.go:245-276 | the data-flow iteration ends with i in D[j] exactly if i dominates j, for every j but recover |
| DomFrontiers.DomFrontier.Build | ssa/lift.go:78-96 | computes the exact frontier of every block of a subtree, bottom up |
| DomFrontiers.BuildDomFrontier | ssa/lift.go:98-105 | v is in df[u] exactly if u dominates a predecessor of v and does not strictly dominate v |
| DomFrontiers.Take | ssa/lift.go:356-367 | removes the least element of a set, or reports that it is empty |
| DomFrontiers.PlacePhis | ssa/lift.go:442-486 | the worklist ends with one new phi in each block of the iterated dominance frontier of the defining blocks and none elsewhere |
| DomFrontiers.IteratedIsClosed | ssa/lift.go:442-447 | the iterated frontier contains the frontier of every defining block and of its own members |
| DomFrontiers.IteratedIsLeast | ssa/lift.go:442-447 | it is contained in every set with that property |
| LiftFunction.DefBlocks | ssa/lift.go:404-434 | looking only at the listed referrers of the alloc, accepts it exactly if every instruction with it as an operand loads from it or stores another value to it, and then collects exactly the blocks that define the cell |
| LiftFunction.AddressesMean | ssa/lift.go:407-432 | an alloc is used only as an address exactly if every instruction with it as an operand is a load from it or a store of another value to it |
| LiftFunction.LiftAlloc | ssa/lift.go:386-489 | accepts exactly the eligible allocs used only as addresses, and places phis for those only |
| LiftFunction.Chooser.Choose | ssa/lift.go:183-204 | gives exactly the lifted allocs the numbers 0, 1, 2, … and places the phis of each |
| LiftFunction.PlanValid | ssa/lift.go:183-211 | the chosen cells and phis meet everything that renaming relies on |
| LiftFunction.Lift | ssa/lift.go:131-217 | lifts exactly the eligible allocs used only as addresses, so that of an eligible alloc that is only loaded from and stored to no access is left outside the recover block, and yields the renamed function with its needed phis; from exact referrer lists it leads to lists that hold exactly the surviving users of every value but the lifted allocs, whose own lists the source lets go stale |
| LiftFunction.NoAccessLeft | ssa/lift.go:545-638 | a lifted alloc is gone, and no surviving instruction or phi operand names it |
| LiftFunction.LiftPreservesMeaning | ssa/lift.go:131-217 | along every walk from the entry and for every environment, the original and the lifted function execute the same surviving instructions on the same operand values |
| LiftingProof.RenReady | ssa/lift.go:527-537 | the value a cell is renamed to at a point is defined on every way there |
| LiftingProof.NoPhiSame | ssa/lift.go:442-486 | where no phi was placed, the renaming at the end of every predecessor is the one at the dominator |
| LiftingProof.SimRun | ssa/lift.go:537-653 | along every walk, each operand of the lifted program equals what the load/store program reads, zero values after an alloc included |
| LiftingProof.LiftingPreservesMeaning | ssa/lift.go:527-653 | renaming preserves the observable history of every run |
| Renaming.Renamed | ssa/lift.go:518-525 | the current value of a cell, made the zero constant on first need |
| Referrers.BuildReferrers | ssa/func.go:290-304 | the list of each value other than a constant holds exactly the instructions that have it as an operand |
| Referrers.RemoveInstr | ssa/lift.go:107-119 | the compaction removes every occurrence of one instruction and keeps the others in order |
| Referrers.ListReachesAll | ssa/lift.go:495-507 | if the list of x is exact, visiting its entries alone replaces x everywhere |
| Referrers.MovedOk | ssa/lift.go:495-513 | after the replacement, appending the list of x to that of y and emptying that of x makes every list exact again |
| Referrers.DeletedOk | ssa/lift.go:567-575 | deleting an instruction keeps every list exact once it is off the lists of its operands |
| Referrers.EdgeSetOk | ssa/lift.go:618-638 | setting a nil edge of a new phi keeps every list exact once the phi is on the list of the new operand |
| Renaming.Lifter.ReplaceAll | ssa/lift.go:495-513 | visiting only the listed referrers of x replaces x by y in all instructions and phi operands and nothing else; the list of x moves to the end of that of y, and all lists stay exact |
| Renaming.Lifter.RenameLoad | ssa/lift.go:577-593 | a load of a cell is deleted and all its uses become the current value; all lists stay exact |
| Renaming.Lifter.RenameDef | ssa/lift.go:547-575 | the alloc of a cell, or a store to one, is deleted after the store has left the list of the stored value; all lists stay exact |
| Renaming.Lifter.RenameInstr | ssa/lift.go:545-616 | one instruction is renamed as the specification of renaming says, and the referrer lists hold exactly the surviving users |
| Renaming.Lifter.RenameEdges | ssa/lift.go:618-638 | in every successor the operand for this edge of every new phi becomes the current value of its cell, whose referrer list gains the phi |
| Renaming.Lifter.Rename | ssa/lift.go:537-653 | the traversal renames the whole subtree as specified |
| Renaming.Lifter.RenameChild | ssa/lift.go:640-651 | reusing the array for the last child, and copying it for the others, renames every child from the same values |
| Renaming.RenameFunction | ssa/lift.go:537-653 | the result has every cell access deleted, every operand substituted by its dominating value, and all phi operands set; from exact lists it leads to lists that hold exactly the surviving users of every value but the lifted allocs, whose own lists the source lets go stale |
| DeadPhis.HasDirectReferrer | ssa/lift.go:332-342 | reading the stored list, which is exact, decides whether an instruction other than a phi uses the phi |
| DeadPhis.Marker.Mark | ssa/lift.go:319-330 | marks a phi and everything it needs through phi operands, and ends |
| DeadPhis.Discard | ssa/lift.go:305-311 | takes the phi off the list of each of its operands, and nothing else |
| DeadPhis.SweepBlock | ssa/lift.go:298-316 | compacts the live phis of a block in order and strikes exactly the dead ones from their operands' lists |
| DeadPhis.ListsPruned | ssa/lift.go:298-316 | after the sweep all lists are exact for the pruned function, and no list of any value holds a removed phi |
| DeadPhis.RemoveDeadPhis | ssa/lift.go:272-317 | keeps a new phi exactly if a chain of phi operands leads to it from a phi with another referrer or from a phi that existed before; all referrer lists stay exact, and none holds a removed phi |
| DeadPhis.NoUseOfRemoved | ssa/lift.go:298-316 | no surviving instruction or phi has a removed phi as an operand |
| DeadPhis.PruningIsLeast | ssa/lift.go:272-317 | whatever new phis are kept without leaving a use of one that is not, they include all that removeDeadPhis keeps |
| DeadPhis.PruningPreservesMeaning | ssa/lift.go:216-217 | dropping the dead phis changes no run |
| BlockOpt.Func.Phis | ssa/func.go:66-75 | counts the phis at the head of a block |
| BlockOpt.Func.RemovePred | ssa/func.go:107-135 | the compaction strikes a predecessor and, at the same places, the phi operands |
| BlockOpt.Func.ReplacePred | ssa/func.go:80-86 | replaces one predecessor by another in place |
| BlockOpt.Func.ReplaceSucc | ssa/func.go:91-97 | replaces one successor by another in place |
| BlockOpt.Func.RemoveNilBlocks | ssa/func.go:366-380 | compacts the list of blocks in order and numbers them |
| BlockOpt.Func.MarkReachable | ssa/blockopt.go:23-30 | marks b and what it leads to through unmarked blocks, and ends |
| BlockOpt.Func.DeleteUnreachableBlocks | ssa/blockopt.go:39-62 | keeps exactly the blocks reached from the entry or recover, well formed, with the same histories |
| BlockPasses.StrikeKeepsChoice | ssa/func.go:107-135 | a phi entered from another predecessor chooses the same operand after one is removed |
| BlockPasses.PredRemovedShows | ssa/blockopt.go:50-61 | removing an edge from an unreachable block changes no history |
| BlockOpt.Func.FuseBlocks | ssa/blockopt.go:116-152 | fuses exactly if the only edge from a is the only edge to a block that does not begin with a phi; the function stays well formed with one block less and the same histories |
| BlockPasses.FusedShows | ssa/blockopt.go:111-152 | fusing two blocks changes no history, for every branch behaviour |
| BlockPasses.FusedWellFormed | ssa/blockopt.go:111-152 | fusing keeps edges dual and without repeats, phi operands aligned and every block reached |
| BlockOpt.Func.JumpThreading | ssa/blockopt.go:69-109 | bypasses b exactly if it is not the entry and begins with a jump to another block that does not begin with a phi, over all predecessors including an If that becomes a Jump, with one block less and the same histories |
| BlockPasses.ThreadedShows | ssa/blockopt.go:65-109 | bypassing an empty block changes no history |
| BlockPasses.ThreadedWellFormed | ssa/blockopt.go:65-109 | bypassing keeps edges dual and without repeats, phi operands aligned and every block reached |
| BlockOpt.Func.OptimizeBlocks | ssa/blockopt.go:162-195 | ends with a well-formed function of reached blocks, numbered in place, with the same histories from every root, in which no block that is the only successor of its only predecessor is left unless it begins with a phi, and no block but the entry begins with a jump unless to itself or to a block that begins with a phi |
| Pipeline.OptimizedIsBuildable | ssa/func.go:331-335 | the graph that optimizeBlocks leaves, on the places of its blocks, has every block reached from the entry, dual edges and an isolated recover block, as buildDomTree requires |
| Pipeline.OptimizeAndDominate | ssa/func.go:331-335 | the two passes in sequence give the same histories and the dominator tree of the resulting graph |
| Pipeline.BuildAndLift | ssa/func.go:333-342 | the lists that buildReferrers builds and the tree that buildDomTree builds meet what lift requires, and the three in sequence give the lifted function with exact lists |
| Cfgs.BisimilarShows | ssa/blockopt.go:158-161 | graphs whose steps match, up to stuttering, have the same histories |
| Lowering.Builder.EmitJump | ssa/emit.go:261-266 | ends the current block with a jump and lists the edge at both ends |
| Lowering.Builder.EmitIf | ssa/emit.go:272-278 | ends the current block with a branch and lists both edges at both ends |
| Lowering.Builder.Cond | ssa/builder.go:78-115 | from the current block the code evaluates the same leaves in the same order as the expression and reaches t if it is true and f if not; both targets gain a predecessor |
| Lowering.Builder.ExprValue | ssa/builder.go:513-536 | the code leaves the value of the expression in the returned register or constant and disturbs no earlier register |
| Lowering.Builder.LogicalBinop | ssa/builder.go:121-171 | the phi has one operand per predecessor and yields the value of the expression, evaluating the right operand only when the left does not decide |
| LoweringCode.EvaluatesBinop | ssa/builder.go:155-171 | on the short paths the phi chooses the short-circuit constant, on the long path the right operand's value |
| Lowering.Builder.EmitCompare | ssa/emit.go:103-118 | compares a case with the tag; without a tag the case itself is the condition |
| Lowering.Builder.LowerTests | ssa/builder.go:1283-1294 | the cases of a clause are compared in order until one matches |
| Lowering.Builder.LowerClause | ssa/builder.go:1262-1304 | one clause, with body blocks made ahead so that fallthrough leads to the next clause of the source |
| Lowering.Builder.FinishSwitch | ssa/builder.go:1306-1318 | the displaced default is entered when no case matches and falls through in source order |
| Lowering.Builder.LowerSwitch | ssa/builder.go:1238-1319 | runs the first clause in source order with a matching case, else the default wherever it stands, with fallthrough to the next source clause and break to the end |
| Statements.SwitchExecutes | ssa/builder.go:1238-1319 | tag, tests, bodies and last jump together do what the switch means |
| Lowering.Builder.LowerJump | ssa/builder.go:2069-2099 | break and fallthrough lead to the targets of the innermost switch |
| Lowering.Builder.LowerIf | ssa/builder.go:2104-2125 | an if without else |
| Lowering.Builder.LowerIfElse | ssa/builder.go:2104-2125 | an if with else |
| Lowering.Builder.LowerStmt | ssa/builder.go:2069-2128 | the code does what the statement means and touches only the current block, new blocks and the predecessors of the targets |
| Lowering.LowerFunction | ssa/builder.go:2069-2128 | in every execution the code of a whole body evaluates and does, in order, what the statement does |
| LoweringModel.ReachesStable | ssa/emit.go:257-278 | code already built keeps its meaning while more is built |
| Scc.Tarjan.StrongConnect | staticcheck/vrp/vrp.go:937-973 | a call leaves all finished vertices in components that are exactly the classes of mutual reachability, and its lowlink bounds the edges into the remaining stack |
| Scc.Tarjan.PopComponent | staticcheck/vrp/vrp.go:961-972 | pops the stack down to v and gives all popped vertices the same number |
| Scc.SealedIsStrong | staticcheck/vrp/vrp.go:961-972 | the part of the stack that is popped is strongly connected |
| Scc.FindSCCs | staticcheck/vrp/vrp.go:929-985 | two vertices have the same number exactly if each reaches the other, every edge leads to the same or a higher number, and the groups list the components |
| Intervals.Cmp | staticcheck/vrp/int.go:132-149 | decides the order of the extended integers |
| Intervals.NoPanic | staticcheck/vrp/int.go:43-86 | addition and subtraction panic for no pair and are exact on integers and on unopposed infinities |
| Intervals.MaxZ | staticcheck/vrp/int.go:151-165 | the loop finds the greatest |
| Intervals.MinZ | staticcheck/vrp/int.go:167-181 | the loop finds the least |
| Intervals.IntersectionExact | staticcheck/vrp/int.go:221-236 | the intersection of any two known intervals, inverted ones included, has exactly the common members |
| Intervals.UnionLeast | staticcheck/vrp/int.go:238-250 | the union of any two known intervals has the members of both, and is the least interval that does exactly if an operand without members does not stretch the other one |
| Intervals.UnionTooWide | staticcheck/vrp/int.go:238-250 | the union of [0, -3] and [5, 6] is [0, 6] |
| Intervals.AddContains | staticcheck/vrp/int.go:252-258 | the sum contains every sum of members |
| Intervals.EmptyAbsorbs | staticcheck/vrp/int.go:252-278 | a sum, difference or product with the empty interval is empty |
| Intervals.AddLeast | staticcheck/vrp/int.go:252-258 | and is within every interval that does, infinite ends included |
| Intervals.SubContains | staticcheck/vrp/int.go:260-266 | the difference contains every difference of members |
| Intervals.SubLeast | staticcheck/vrp/int.go:260-266 | and is within every interval that does |
| Intervals.MulContains | staticcheck/vrp/int.go:268-278 | the product contains every product of members |
| Intervals.MulLeast | staticcheck/vrp/int.go:268-278 | and is within every interval that does, infinite ends and zero included |
| Intervals.EvalPhi | staticcheck/vrp/vrp.go:76-82 | the loop computes the fold of the unions |
| Intervals.PhiCovers | staticcheck/vrp/vrp.go:76-82 | the range of a phi is known, has the members of all operands, and is empty or has bounds of operands |
| Intervals.PhiLeast | staticcheck/vrp/vrp.go:76-82 | in whatever order the operands are taken the range of a phi is the least interval with their members, exactly if no operand without members has a bound that counts |
| Intervals.PhiOrderMatters | staticcheck/vrp/vrp.go:53-63 | otherwise the order of the operands, which comes from a map, can decide: [3, 1], [5, 2] and [10, 11] give [10, 11] or [3, 11] |
| Widening.WidenIntInterval | staticcheck/vrp/vrp.go:718-750 | a bound of the old range that the new one does not exceed stays; an exceeded lower bound becomes the first constant at most the new one, or minus infinity if there is none, and an exceeded upper bound the first constant at least the new one, or infinity; nothing changes if neither is exceeded |
| Widening.FirstAboveIsLeast | staticcheck/vrp/vrp.go:493-493 | with sorted constants the first constant at least a bound is the least one |
| Widening.SpinExact | staticcheck/vrp/vrp.go:718-750 | widening reports a change and leaves the range as it was exactly if the range is empty and the result spins: one end infinite on the wrong side, the other finite with a constant beyond it |
| Widening.WidenCovers | staticcheck/vrp/vrp.go:718-750 | for all intervals, inverted ones included, and sorted constants: the widened range contains the members of old and new, no change means the range is the old one, and every change but a spinning one uses up part of a bound fixed by the constants |
| Widening.Solver.Widen | staticcheck/vrp/vrp.go:714-779 | evaluates one constraint and widens only its target, unless that is a channel, as a step of the specified loop |
| Widening.Solver.UsesOf | staticcheck/vrp/vrp.go:872-887 | lists for each variable exactly the constraints of the component that use it |
| Widening.TurnDrops | staticcheck/vrp/vrp.go:529-537 | a turn in which nothing spins uses up rank, or leaves the ranges alone and the worklist shorter |
| Widening.EndsIffSpinsStop | staticcheck/vrp/vrp.go:529-537 | from any state, for any evaluation and any order, the loop ends exactly if it spins only finitely often |
| Widening.ChangesBounded | staticcheck/vrp/vrp.go:529-537 | along any run in which nothing spins, a variable changes at most 2n + 5 times with n constants |
| Widening.LoopEnds | staticcheck/vrp/vrp.go:529-537 | the loop ends from all ranges with a property that the constraints of the component keep and with which none of them spins, whatever they read |
| Widening.TurnKeeps | staticcheck/vrp/vrp.go:529-537 | every turn keeps each active constraint that reads only its operands satisfied or one of its variables on the worklist |
| Widening.Solver.SolveComponent | staticcheck/vrp/vrp.go:527-537 | ends from ranges with such a property; no range loses a member; variables outside the component and channels keep their ranges; for every constraint that reads only its operands, has a known variable of the component and no channel as target, the range of the target has all members of what it evaluates to; a constraint on a channel that reads channels and outside variables is satisfied exactly if it was before |
| Widening.Solver.Propagate | staticcheck/vrp/vrp.go:567-577 | the target of a constraint whose operand lies in a finished component gets its value in the ranges so far, which satisfies it if it reads only its operands and not its target |
| Widening.EndsExactly | staticcheck/vrp/vrp.go:527-537 | from calm ranges the loop ends on every component, for every evaluation that keeps calm but for a possible result ni, exactly if ni does not spin |
| Widening.ChannelsDecided | staticcheck/vrp/vrp.go:776-778 | a constraint on a channel that reads only channels and outside variables holds at the end exactly if it held at the start |
| Constraints.FormReadsOnly | staticcheck/vrp/vrp.go:72-74 | every kind of constraint but a conversion evaluates to the same in ranges that agree on its operands |
| Constraints.FormSound | staticcheck/vrp/int.go:366-430 | for every kind of constraint but a conversion: whatever the instruction can produce from members of its operands' ranges is in its value |
| Constraints.FormExact | staticcheck/vrp/slice.go:158-273 | where the operands have members, the value of a copy, interval, length, sum, difference, intersection, slice expression or make has no other members |
| Constraints.FormLeast | staticcheck/vrp/vrp.go:76-82 | where the operands have members, the value of a phi or product is within every interval with all that it can produce |
| Constraints.UnknownOperand | staticcheck/vrp/slice.go:247-262 | an unknown operand gives no result, but any length for len, and the bound itself for an arm of a comparison |
| Constraints.ConversionSound | staticcheck/vrp/int.go:394-418 | the value of a widening conversion holds all values of its operand that fit exactly if the range of its target already reaches up that far |
| Constraints.ConversionCopies | staticcheck/vrp/int.go:386-415 | any other conversion, or one to an unknown target, passes its operand's members on |
| Constraints.FormCalm | staticcheck/vrp/int.go:366-430 | every kind of constraint but make evaluates, in ranges that do not spin, to a range that does not |
| Constraints.FormTame | staticcheck/vrp/slice.go:158-273 | every kind of constraint but a widening signed conversion, make included, evaluates to a range clear of the wrong infinity if the ranges and the given intervals are |
| Constraints.PeacefulEnds | staticcheck/vrp/vrp.go:527-537 | the loop ends, in every order, on every component without make that starts calm, and on every component, with make or not, whose ranges and given intervals are clear of the wrong infinity |
| Constraints.SolveForms | staticcheck/vrp/vrp.go:527-537 | on those components the loop ends with the range of every target holding all members of what its active constraint evaluates to; without conversions and channels, and from ranges into which the outside has been propagated, no execution of the constraints ever leaves the ranges |
| Constraints.PropagatePrimes | staticcheck/vrp/vrp.go:567-577 | propagating a constraint gives its target what it can produce from the outside |
| Constraints.StaysInside | staticcheck/vrp/vrp.go:527-537 | ranges that hold what the constraints produce from them hold every value of every execution that starts in them |
| ConstraintRuns.CountingLoop | staticcheck/vrp/vrp.go:527-537 | on the component of x = phi(0, y) and y = x + 1 the loop ends, for all constants, with every natural number in the range of x |
| ConstraintRuns.ConversionLoop | staticcheck/vrp/int.go:394-403 | a loop with a widening conversion on which the worklist ends with a range that an execution leaves |
| Constraints.MakeSpins | staticcheck/vrp/slice.go:263-272 | for which sizes, proper or not, the length of a made slice spins: the upper bound is -∞ and a constant is not above the larger of 0 and the lower bound, or the lower bound is +∞ and a constant is not below the finite upper bound |
| ConstraintRuns.SpinNeverEnds | staticcheck/vrp/vrp.go:529-537 | a strongly connected component of a phi, two intersections with what an empty range leaves, a make and a len, on which the loop never ends for any constants of which the least is finite and not positive |
| ConstraintRuns.OrderDecides | staticcheck/vrp/vrp.go:836-870 | with its two entries in the other order the loop ends on that component |
| ConstraintRuns.ChannelLoop | staticcheck/vrp/vrp.go:776-778 | a strongly connected loop of two channels into which a range has been propagated, left by the loop with a constraint that does not hold |
| ConstraintRuns.UnknownStaysIdle | staticcheck/vrp/vrp.go:836-870 | if no channel of the component is known at the start, no constraint among them is active at the end |
| CallGraphs.CallGraph.CreateNode | callgraph/callgraph.go:68-75 | adds a node without edges unless it is there |
| CallGraphs.CallGraph.AddEdge | callgraph/callgraph.go:125-129 | adds one edge to both lists and keeps them dual |
| CallGraphs.SwapRemove | callgraph/util.go:152-165 | removes exactly the edge by moving the last one to its place; it is always found |
| CallGraphs.CallGraph.RemoveOutEdge | callgraph/util.go:152-165 | the caller's list loses exactly this edge |
| CallGraphs.CallGraph.RemoveInEdge | callgraph/util.go:168-181 | the callee's list loses exactly this edge |
| CallGraphs.CallGraph.DeleteIns | callgraph/util.go:136-141 | takes the incoming edges out of their callers' lists, self edges included |
| CallGraphs.CallGraph.DeleteOuts | callgraph/util.go:144-149 | takes the remaining outgoing edges out of their callees' lists |
| CallGraphs.CallGraph.DeleteNode | callgraph/util.go:129-133 | removes a node and exactly its edges, and keeps the lists dual |
| CallGraphs.CallGraph.Inline | callgraph/util.go:109-118 | adds exactly the edges that lead a caller of the node on to its callees, none twice |
| CallGraphs.InlinedOne | callgraph/util.go:81-85 | taking out one more node, whichever it is, keeps the correspondence to routes |
| CallGraphs.CallGraph.DeleteSyntheticNodes | callgraph/util.go:86-121 | for every order of the nodes: an edge between kept nodes exists exactly if the original graph has a route with that first site whose interior nodes are all deleted; lists stay dual |
| CallGraphs.PathSearcher.Search | callgraph/util.go:58-79 | finds a path to an end, or has seen everything reachable and no end |
| CallGraphs.PathSearch | callgraph/util.go:58-79 | finds a path exactly if there is one |
| Descriptions.StaticCallGraph | callgraph/static/static.go:14-33 | an edge for each static call and for nothing else |
| Descriptions.StaticGraphFits | callgraph/static/static.go:20-31 | with that graph every nested request follows a call edge |
| Descriptions.PureMeans | functions/pure.go:43-123 | a function is pure exactly if every chain of static calls from it, not looking into listed functions, leads to one that is listed, or is eligible, does nothing bad and calls no other function that can call it back |
| Descriptions.RecursionIsPure | functions/pure.go:66-66 | an eligible function that does nothing but call itself is pure |
| Descriptions.LookAt | functions/pure.go:43-123 | the scan of a body and the search for a path back decide as the protocol assumes |
| Descriptions.ReachShrinks | functions/pure.go:66-81 | a callee that cannot call back reaches strictly less |
| Descriptions.StepKeeps | functions/functions.go:82-109 | every atomic step of every goroutine keeps the invariant: one owner per pending entry, right results, chains of calls that passed the test |
| Descriptions.NoWaitCycle | functions/pure.go:66-81 | no cycle of goroutines waiting for each other's entries can form, not even of one with itself |
| Descriptions.NoDeadlock | functions/functions.go:82-109 | as long as a request is open some goroutine can take a step |
| Descriptions.StepCost | functions/functions.go:82-109 | every step lowers a bound, so every schedule ends |
| Descriptions.GetIsCorrect | functions/functions.go:82-109 | in every interleaving each description is computed at most once, every answer tells whether all chains of static calls from the function asked for lead to harmless functions, and the run stops only when all requests are answered |
| Rta.Analyzer.AddReachable | callgraph/rta/rta.go:125-137 | queues a function when it is first reached |
| Rta.Analyzer.AddEdge | callgraph/rta/rta.go:141-152 | records the edge and its callee |
| Rta.Analyzer.VisitAddrTakenFunc | callgraph/rta/rta.go:157-176 | combines a new address-taken function with all dynamic sites of its signature |
| Rta.Analyzer.VisitDynCall | callgraph/rta/rta.go:179-192 | combines a new dynamic site with all address-taken functions of its signature |
| Rta.Analyzer.VisitInvoke | callgraph/rta/rta.go:205-217 | combines a new invoke site with all runtime types that implement its interface |
| Rta.Analyzer.Interfaces | callgraph/rta/rta.go:306-319 | keeps both halves of the implements relation complete for a new type |
| Rta.Analyzer.Implementations | callgraph/rta/rta.go:322-339 | keeps both halves of the implements relation complete for a new interface |
| Rta.Analyzer.AddRuntimeType | callgraph/rta/rta.go:345-459 | enters a type and everything it consists of, with their methods, and ends |
| Rta.Analyzer.VisitFunc | callgraph/rta/rta.go:222-257 | carries out all instructions of a function |
| Rta.Analyze | callgraph/rta/rta.go:266-303 | ends with facts closed under all rules and contained in every closed set, so independent of the order of discovery |
| RtaRuns.AllFound | callgraph/rta/rta.go:266-303 | closed facts hold all calls, function values and interface types of every execution |
| RtaRuns.AllReal | callgraph/rta/rta.go:266-303 | every one of the least closed facts is borne out by some execution |
| RtaRuns.AnalyzeRuns | callgraph/rta/rta.go:266-303 | an edge is reported exactly if some execution makes the call, a function exactly if some execution enters it, a runtime type exactly if some execution makes it; dynamic calls may use any value of their signature made before, invokes any implementing type made before |
| Loops.AllPredsBut | functions/loops.go:34-50 | adds only blocks that reach b without passing through the header, together with all their other predecessors, and ends |
| Loops.LoopExact | functions/loops.go:24-28 | so the loop is the header and exactly the blocks that reach n without passing through it |
| Loops.HeaderDominates | functions/loops.go:13-20 | the header dominates every member of its loop |
| Loops.FindLoops | functions/loops.go:7-32 | one loop for each back edge, listed as often as it occurs among the predecessors of its header and so once where edges do not repeat, consisting of the header and exactly the blocks that reach the source of the edge without passing through the header |
| Layout.AlignUp | cmd/structlayout-optimize/main.go:201-205 | a multiple of a less than a above x |
| Layout.AlignUpLeast | cmd/structlayout-optimize/main.go:201-205 | the least multiple that is not below x |
| Layout.OffsetsOf | cmd/structlayout-optimize/main.go:189-199 | each field at the next multiple of its alignment |
| Layout.Size | cmd/structlayout-optimize/main.go:150-156 | the sum of the sizes |
| Layout.Pad | cmd/structlayout-optimize/main.go:109-148 | the pieces tile the struct without gap or overlap, keep the fields in order and aligned, and end at a multiple of the largest alignment |
| Layout.SortedMeans | cmd/structlayout-optimize/main.go:168-187 | fields are sorted exactly if those without size come first, then the more tightly aligned ones, then the larger |
| Layout.LessIsWeakOrder | cmd/structlayout-optimize/main.go:168-187 | Less is a strict weak order that leaves only fields of equal size and alignment unordered |
| Layout.SortedIsSmallest | cmd/structlayout-optimize/main.go:105-187 | with power-of-two alignments and sizes that are multiples of them, the order by Less gives the smallest total over all permutations |

## Left out

- Debug references, `RunDefers` pruning, positions, comments and the compaction of `Instrs` and `Locals` at the end of lifting.
- LiftFunction.LiftAlloc: the type-dependent part of eligibility (no aggregates, no named results with a recover block) is a given set of allocs.
- LiftFunction.Lift: takes the type-dependent part of eligibility (no aggregates, no named results with a recover block) as a given set of allocs; the surviving instructions keep their slots instead of being compacted into a new slice behind the phis.
- The five slices of the dominator computation share one allocation in the source; the model keeps them apart.
- Bit sets (`blockSet`, the Kildall sets) are mathematical sets.
- Inputs of lifting and dominators: all blocks reachable, an entry without predecessors, no repeated edges, a recover block without edges; the block optimizations are proved to end with all blocks reached and to keep the others (`Pipeline.OptimizedIsBuildable`).
- Renumbering, naming and printing of SSA values, and the sanity checker apart from its Kildall loop.
- Lowering of loops, labels, `goto`, `continue`, `select` and type switches.
- Lowering.Builder.ExprValue: an expression that is no boolean operator is one opaque leaf.
- Lowering.Builder.EmitCompare: operand conversions and a case of interface type in a switch without tag are absent, since leaves have no types.
- Lowering.Builder.LowerSwitch: no initialiser and no label; an initialiser is a statement in front.
- Lowering.Builder.LowerJump: break without label and fallthrough only.
- Lowering.Builder.LowerIf: no initialiser.
- Lowering.Builder.LowerIfElse: no initialiser.
- Lowering.Builder.LowerStmt: blocks, if, switch, break and fallthrough only; the other statements are absent.
- Lowering.LowerFunction: a whole body of those statements only.
- `resolveFutures`, the evaluation of futures in `entries`, narrowing, the building of constraints from instructions and the final clamp of value range propagation; string, slice and channel ranges are their intervals, and the bound that a future resolves to is part of its constraint.
- Machine wrap-around: intervals and struct offsets are over unbounded integers, as `math/big` and realistic sizes make them.
- The `Stub`, `Infinite`, `Ranges` and other fields of a description: they are computed by the same call and do not call `Get`.
- Data races on the call graph: `CreateNode` in `IsPure` finds the node present in the model, since the static call graph has all functions.
- Rta.Analyze: the reflection flag of runtime types, the address-taken flag of reachable functions and the number of parallel edges are not modelled; with no roots the source returns nil and the model empty facts.
- go/types (method sets, implements, identity of signatures) as given relations, and `sort.Sort` as a sorted permutation.
- `combine` of structlayout-optimize, the other call graph algorithms, `unused`, and all checkers that match syntax.
