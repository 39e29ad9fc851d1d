# SVF: verified models of its algorithmic cores

Dafny models of the parts of SVF whose results rest on an argument rather than on
a library call, with proofs of what they promise. `dafny verify dfyconfig.toml`
checks everything.

## What is modelled

**Demand-driven points-to solver** (`ValueFlow.dfy`, `SolverState.dfy`,
`DDASolver.dfy`, `Executions.dfy`). `DDAVFSolver` answers a points-to query by walking the
value-flow graph backwards, with a visited set, a cache per item, and a re-run of
the dependents whenever a cache grows. The model is the base template with its
default hooks: `findPT` and `reCompute` call each other, an item may be entered
again while it is on the call stack, and stores make strong updates. The equations
of all statements and their least solution are defined without reference to the
solver. Proved: the recursion ends whatever the budget; at every moment all caches
are below the least solution; an in-budget query returns the least solution; a
budget that depends on the graph only is never exceeded; and over any sequence of
queries, in or out of budget, what remains marked visited is final. The least
solution in turn is the least assignment that obeys one plain rule per statement,
and it covers every execution of the graph's statements in which summary objects
stand for any number of cells, and other objects for one: the strong updates lose
nothing.

**Breaking constant expressions** (`LLVMIR.dfy`, `ConstantConversion.dfy`,
`Placement.dfy`, `BreakConstantExpr.dfy`). The worklist pass that turns constant GEP, binary and
unary expressions into instructions. Bodies have a semantics along control paths
in which opcodes and calls are arbitrary functions. Proved: meaning is preserved,
the pass ends, no such expression is left at any depth of constant expressions,
original instructions keep their order, phis stay first, and the new instructions
stand where they are used. Two exact conditions: rewriting a phi keeps its values if and only if
it lists one value per block, and nothing is left inside constant aggregates if
and only if nothing was there, since the tests do not look into them.

**Two-phase search with caches** (`WorkLists.dfy`, `TwoPhase.dfy`,
`SearchOrder.dfy`, `ObjTypeInference.dfy`, `Neighbours.dfy`, `IncompleteEntries.dfy`). Pairs of a value
and a flag on a stack imitate a recursive post-order; both `bwfindAllocOfVar` and
`fwInferObjType` are instances, on neighbours that are characterised flow by flow.
Proved: the queried value's answer is exactly what the search should collect from
the caches it started with, on cyclic graphs too, hence all reachable sites for
exact caches; no entry ever holds an unreachable site. The entries left for other
values can be incomplete, because the stack drops a push of a value that waits
already and a value on a cycle is merged before the cycle is closed
(`IncompleteEntries.dfy` has a program for each). When: queries keep exact entries
exact whichever sites the values own if and only if the uncached values are
orderly, that is, no cycle of different values and no neighbour that waits below a
later one that leads to it. For given sites the same holds if values are separated:
each has, against every other that leads to it, a site that the other reaches
through it only. Without that, the lemmas on loss still name every site that a
cycle or a dropped push next to the queried value loses. The type inferred for a
heap object is always one that a reachable infer site shows, or the default;
because the map of type sizes orders unsigned keys as signed ones, it is the
largest if and only if the sizes lie all below or all above 2^31.

**Control flow graph** (`ICFG.dfy`, `NextInstructions.dfy`, `ICFGBuilder.dfy`). Nodes
and edges of a whole program, with intrinsics erased from control flow, unreachable
blocks, calls and branch conditions. The edge relation is proved against paths
through intrinsics, also where intrinsics end blocks, and exactly the intrinsics at the
front of unreachable blocks have nodes; the search for what comes next
ends if and only if it meets no loop of intrinsics.

**Type layout** (`TypeLayout.dfy`, `TypeCollector.dfy`). The flattened fields and
elements recorded for each type, with 32- and 64-bit wrap-around written out.
Scalars of nested structs and arrays correspond one to one to slots if and only if
no array has length zero. All records made for a type are right if and only if the
number of elements and slots of each array, and of slots of each struct, fit in 32
bits. The slots alone do not decide: an array of 2^32 empty structs has no slot at
all, and the loop over its elements, whose counter has 32 bits, never ends. The
index formula by itself is right if and only if the start of the last element fits.

**Debug-information class hierarchy** (`DCHG.dfy`). Type equality as equality of
shapes, canonical representatives over any sequence of calls, and the memoised
queries on a graph built edge by edge. The comment on `teq` in `DCHG.h` describes a
finer relation than the code computes (`DocumentedIsFiner`, `DocumentedDiffers`);
the model follows the code, and `DocumentedAgreesIff` says when both agree. An edge
added after a query keeps the cached answers right if and only if they hold what it
brings already (`CacheKeptIff`, `EdgeAfterQuery`); the builder adds all edges
first.

**Class-hierarchy groups** (`CHGBuilder.dfy`). Grouping classes into connected
components and numbering their virtual functions. Functions of one name have
consecutive ids if their last groups are the same; a function that unrelated classes
share can be numbered away from them (`SharedFunctionSplitsName`), and
`SameNameConsecutiveIff` says exactly when.

**Innermost brackets** (`CppUtil.dfy`). The search for innermost template brackets
in demangled names, for every input string.

Inputs that come from LLVM, from options or from other analyses are parameters:
the value-flow graph, guards and object attributes of the solver; budgets; users
and definitions of values; debug types; demangled names; and the blocks reachable
from a function's entry.

## Model

| member | source | states |
|---|---|---|
| `ValueFlow.StoreRuleMonotone` | SVF/svf/include/DDA/DDAVFSolver.h:204-245 | The store rule is monotone with strong updates included: when the target set grows, no item a store passes on is lost, and an empty target set passes on neither the stored value nor the old contents. |
| `ValueFlow.TransferMonotone` | SVF/svf/include/DDA/DDAVFSolver.h:170-252 | Every statement's equation is monotone in all points-to sets, also the load and store equations whose inputs depend on other points-to sets. |
| `ValueFlow.LeastIsLeastSolution` | SVF/svf/include/DDA/DDAVFSolver.h:170-252 | The equations have a least solution: the intersection of all pre-solutions solves them and is below every solution. |
| `ValueFlow.AgreeOnReads` | SVF/svf/include/DDA/DDAVFSolver.h:170-252 | The value of an equation, and the list of items it reads, depend only on the items it reads. |
| `ValueFlow.ClosedSolvedIsLeast` | SVF/svf/include/DDA/DDAVFSolver.h:138-166 | A set of items that satisfy their equations, read only each other and stay below the least solution carry exactly the least solution. |
| `Executions.LeastObeysRules` | SVF/svf/include/DDA/DDAVFSolver.h:170-252 | The least solution is the least assignment that obeys one plain rule for each kind of statement, written without the equations. |
| `Executions.StrongUpdateIff` | SVF/svf/include/DDA/DDAVFSolver.h:454-469 | An update is strong exactly if the pointer has one target, which is no heap, array, field-insensitive or recursive local object. |
| `Executions.WeakStoreKeeps` | SVF/svf/include/DDA/DDAVFSolver.h:454-469 | In every solution a store keeps the old contents of an object if its pointer may target another object, or the object is a heap, array, field-insensitive or recursive local one. |
| `Executions.StrongStoreOverwrites` | SVF/svf/include/DDA/DDAVFSolver.h:454-469 | In every solution a store whose pointer targets one object only, which is none of these, leaves exactly the stored value's set. |
| `Executions.LeastCoversRuns` | SVF/svf/include/DDA/DDAVFSolver.h:170-252 | Soundness: in every execution of the graph's statements, where summary objects stand for any number of cells, each pointer that is computed is in the least solution, strong updates included. |
| `Executions.AnswerCoversRuns` | SVF/svf/include/DDA/DDAVFSolver.h:138-166 | The answer to an in-budget query covers every execution. |
| `SolverState.ReadsDepend` | SVF/svf/include/DDA/DDAVFSolver.h:276-314 | Every item a statement reads has an edge along which the growth of its cache makes the solver run that statement again. |
| `SolverState.DoneStays` | SVF/svf/include/DDA/DDAVFSolver.h:138-166 | An item that satisfies its equation when a call starts satisfies it when the call returns in budget, although caches may have grown meanwhile. |
| `SolverState.StepTransitive` | SVF/svf/include/DDA/DDAVFSolver.h:138-166 | What two calls one after the other do to the solver's state is again what a call may do. |
| `SolverState.StoreResult` | SVF/svf/include/DDA/DDAVFSolver.h:204-245 | When the loop over a store's targets ends, the accumulated set is the whole right-hand side of the store's equation and no more, or a re-entrant call has completed the item already. |
| `SolverState.LoadResult` | SVF/svf/include/DDA/DDAVFSolver.h:192-203 | The same for the loop over the objects a load may read. |
| `SolverState.GrowKeeps` | SVF/svf/include/DDA/DDAVFSolver.h:563-571 | Enlarging a cache by part of its own right-hand side keeps every invariant, leaves all caches below the least solution, and strictly shrinks the set of missing facts if anything is new. |
| `SolverState.GrowThenRevisit` | SVF/svf/include/DDA/DDAVFSolver.h:563-571 | Enlarging a cache and then running all dependents again leaves every recorded item as good as before, and the item itself satisfying its equation. |
| `SolverState.AllVisitedFinal` | SVF/svf/include/DDA/DDAVFSolver.h:138-166 | At the end of an in-budget query everything marked visited equals its right-hand side and the least solution, and reads only marked items. |
| `SolverState.ResetKeeps` | SVF/svf/include/DDA/DDAVFSolver.h:324-345 | After the reset every item still marked is final, whether or not the query stayed in budget. |
| `SolverState.CreditOfGrow` | SVF/svf/include/DDA/DDAVFSolver.h:255-314 | Counting one step for each unvisited item and `Fan` steps for each missing fact, a cache that grows sets free enough steps to run all its dependents again. |
| `SolverState.QueryDone` | SVF/svf/include/DDA/DDAVFSolver.h:724-730 | A query that starts from a reset state is in budget if the budget is at least `EnoughSteps`, a number that depends on the graph only; in budget, all it marked is final. |
| `DDASolver.DDAVFSolver.TestOutOfBudget` | SVF/svf/include/DDA/DDAVFSolver.h:724-730 | Counts a step unless the query is out of budget already, and puts it out of budget exactly if the count then exceeds the budget; nothing else changes. |
| `DDASolver.DDAVFSolver.FindPT` | SVF/svf/include/DDA/DDAVFSolver.h:138-166 | Ends without help from the budget (the missing facts and then the unvisited items fall lexicographically, through all the mutual recursion with re-entrance); returns the item's cache; caches stay below the least solution; unless out of budget a newly visited item satisfies its equation, and so does every recorded item that did or whose inputs changed; out of budget an item is only marked; the steps taken and those still possible do not grow. |
| `DDASolver.DDAVFSolver.HandleSingleStatement` | SVF/svf/include/DDA/DDAVFSolver.h:170-252 | The returned set is exactly the statement's right-hand side over the caches on return, unless a re-entrant call has completed the item. |
| `DDASolver.DDAVFSolver.ResolveFunPtr` | SVF/svf/include/DDA/DDAVFSolver.h:492-517 | Querying function pointers first is one more step that keeps all invariants. |
| `DDASolver.DDAVFSolver.BackwardPropDpm` | SVF/svf/include/DDA/DDAVFSolver.h:426-447 | The accumulator grows by exactly the cache of the item at the edge's source; for an indirect edge that item inherits the load entry, so the lookups cannot fail. |
| `DDASolver.DDAVFSolver.BacktraceAlongDirectVF` | SVF/svf/include/DDA/DDAVFSolver.h:374-388 | Collects the sets of exactly the items direct edges lead back to. |
| `DDASolver.DDAVFSolver.BacktraceAlongIndirectVF` | SVF/svf/include/DDA/DDAVFSolver.h:352-372 | Collects the sets of exactly the items for the same object behind indirect edges whose guard holds it, and nothing for a constant object. |
| `DDASolver.DDAVFSolver.HandleLoad` | SVF/svf/include/DDA/DDAVFSolver.h:192-203 | Collects, for each object the pointer may target, what flows in for that object: the load's right-hand side. |
| `DDASolver.DDAVFSolver.HandleStore` | SVF/svf/include/DDA/DDAVFSolver.h:204-245 | The store's right-hand side, with the strong update exactly when the source makes one. |
| `DDASolver.DDAVFSolver.UpdateCachedPointsTo` | SVF/svf/include/DDA/DDAVFSolver.h:563-571 | The item's cache receives the value, and unless out of budget the item then satisfies its equation. |
| `DDASolver.DDAVFSolver.ReCompute` | SVF/svf/include/DDA/DDAVFSolver.h:255-273 | Every recorded item whose equation may read the grown item satisfies its equation again, unless out of budget; the extra steps are at most those the grown cache pays for. |
| `DDASolver.DDAVFSolver.ReComputeForEdges` | SVF/svf/include/DDA/DDAVFSolver.h:276-314 | The same for the recorded items behind the given edges, with the object test for indirect edges that do not end in a load. |
| `DDASolver.DDAVFSolver.OOBResetVisited` | SVF/svf/include/DDA/DDAVFSolver.h:336-345 | Exactly the items recorded in this query lose their marks; the assertion in `clearbkVisited` cannot fail. |
| `DDASolver.DDAVFSolver.ResetQuery` | SVF/svf/include/DDA/DDAVFSolver.h:324-334 | All records of the query are dropped, an out-of-budget query's marks are taken back, and whatever is still marked is final. |
| `DDASolver.DDAVFSolver.ComputeDDAPts` | SVF/svf/lib/DDA/FlowDDA.cpp:43-53 | One query of the base template, whose hook for queries out of budget is empty (DDAVFSolver.h:723): an in-budget answer is the least solution at the pointer's definition, any answer is below it, a query is in budget exactly if its steps are, a budget of `EnoughSteps` is never exceeded, and the state is ready for the next query. |
| `DDASolver.DDAVFSolver.AnswerQueries` | SVF/svf/lib/DDA/DDAClient.cpp:58-71 | Over any sequence of such queries on the same caches, each with its own budget, every in-budget answer is exact: with the empty hook of the base template (DDAVFSolver.h:723) an out-of-budget query never spoils a later one. |
| `BreakConstantExpr.GEPIsPart` | SVF/svf-llvm/lib/BreakConstantExpr.cpp:88-108 | The recursive test finds a GEP expression exactly if there is one at some depth of constant expressions. |
| `BreakConstantExpr.OpIsPart` | SVF/svf-llvm/lib/BreakConstantExpr.cpp:113-133 | The same for binary and unary operators. |
| `BreakConstantExpr.HasConstantExprIff` | SVF/svf-llvm/lib/BreakConstantExpr.cpp:137-152 | Both tests together hold exactly for the values with an expression to be broken at some depth of constant expressions. |
| `Placement.InsertedOnce` | SVF/svf-llvm/lib/BreakConstantExpr.cpp:163-175 | Inserting before an instruction that stands once in a block puts the new one between what precedes it and itself. |
| `Placement.ConversionArranged` | SVF/svf-llvm/lib/BreakConstantExpr.cpp:163-175 | If every instruction has one place and phis come first in their blocks, both still hold after a conversion. |
| `Placement.ConvertsPlaces` | SVF/svf-llvm/lib/BreakConstantExpr.cpp:188-286 | Over all conversions original instructions keep their blocks and their order. |
| `Placement.ConvertsWhereUsed` | SVF/svf-llvm/lib/BreakConstantExpr.cpp:231-281 | In the end every new instruction stands right before the instruction that uses it, or right before the end of the block from which a phi takes it, with other new instructions at most in between. |
| `BreakConstantExpr.Function.ConvertExpression` | SVF/svf-llvm/lib/BreakConstantExpr.cpp:163-175 | The new instruction has the expression's opcode and operands, and the layout is the old one with it right before the insertion point. |
| `BreakConstantExpr.CleanMeans` | SVF/svf-llvm/lib/BreakConstantExpr.cpp:137-152 | A body is clean exactly if neither an operand nor a phi's incoming value has an expression to be broken. |
| `ConstantConversion.ConversionPreserves` | SVF/svf-llvm/lib/BreakConstantExpr.cpp:163-175 | Along every control path one conversion changes nothing but the new instruction's own result. |
| `ConstantConversion.MeaningPreserved` | SVF/svf-llvm/lib/BreakConstantExpr.cpp:188-286 | Along every control path, whatever the opcodes mean and whatever calls do to memory, every original instruction has the same result in the converted function, phis included, and the memory is the same. |
| `BreakConstantExpr.Function.BreakOperand` | SVF/svf-llvm/lib/BreakConstantExpr.cpp:267-280 | All uses of the expression in the instruction name the new instruction, which stands right before it, and less work remains. |
| `BreakConstantExpr.Function.BreakIncoming` | SVF/svf-llvm/lib/BreakConstantExpr.cpp:252-262 | The phi's conversion is meaning-preserving, with the instruction right before the end of the predecessor, and less work remains. |
| `BreakConstantExpr.Function.ProcessInstruction` | SVF/svf-llvm/lib/BreakConstantExpr.cpp:231-281 | After the scan only instructions on the worklist still have expressions to break; either work has fallen or the worklist did not grow. |
| `BreakConstantExpr.Function.CollectWorklist` | SVF/svf-llvm/lib/BreakConstantExpr.cpp:200-217 | The first worklist holds exactly the instructions with an expression to break. |
| `BreakConstantExpr.Function.RunOnFunction` | SVF/svf-llvm/lib/BreakConstantExpr.cpp:191-284 | Ends; leaves no operand with a GEP, binary or unary constant expression at any depth of constant expressions; is a sequence of meaning-preserving conversions that keeps the order of the original instructions and, in an arranged body, phis first and new instructions where they are used; reports a change exactly if there was something to break, and otherwise changes nothing. |
| `BreakConstantExpr.RunOnModule` | SVF/svf-llvm/lib/BreakConstantExpr.cpp:188-286 | The same for every function of a module. |
| `BreakConstantExpr.IncomingReplaced` | SVF/svf-llvm/lib/BreakConstantExpr.cpp:248-260 | If a phi gives each block one value, the rewriting from the first entry on reaches every entry of the block. |
| `BreakConstantExpr.PhiRewriteKeepsValuesIff` | SVF/svf-llvm/lib/BreakConstantExpr.cpp:248-260 | The rewriting keeps every entry's value exactly if the phi lists one value for the block from there on: the condition the comment in the source names. |
| `BreakConstantExpr.CleanThroughAggregatesIff` | SVF/svf-llvm/lib/BreakConstantExpr.cpp:88-152 | The pass removes expressions inside constant aggregates as well exactly if there were none. |
| `BreakConstantExpr.GepInAggregateStays` | SVF/svf-llvm/lib/BreakConstantExpr.cpp:38-39 | A store of a constant struct that holds a GEP keeps it, although the header describes the pass as changing all GEP constant expressions. |
| `BreakConstantExpr.LessWork` | SVF/svf-llvm/lib/BreakConstantExpr.cpp:229-282 | The total size of all constant expressions falls with every conversion. |
| `TwoPhase.CollectedSound` | SVF/svf-llvm/lib/ObjTypeInference.cpp:533-653 | With caches that hold only reachable sites a query collects only reachable sites. |
| `TwoPhase.CollectedExact` | SVF/svf-llvm/lib/ObjTypeInference.cpp:533-653 | With exact, for example empty, caches a query collects all reachable sites, cycles included. |
| `TwoPhase.FirstVisit` | SVF/svf-llvm/lib/ObjTypeInference.cpp:549-579 | The first visit keeps the tree of first pushes: below each waiting value waits the second visit of its parent. |
| `TwoPhase.SecondVisit` | SVF/svf-llvm/lib/ObjTypeInference.cpp:576-645 | The second visit keeps that finished children are merged into finished parents, and every entry between its own sites and what a query for it should collect. |
| `TwoPhase.SearchResult` | SVF/svf-llvm/lib/ObjTypeInference.cpp:547-653 | When the stack is empty the queried value's entry is exactly what the query should collect. |
| `TwoPhase.CachedSearch.Find` | SVF/svf-llvm/lib/ObjTypeInference.cpp:533-653 | Ends; cached entries stay; an uncached value gets exactly what its query should collect; every entry added holds only what a query for its key should collect; what cached values lead to is cached, too. |
| `TwoPhase.CachedSearch.Round` | SVF/svf-llvm/lib/ObjTypeInference.cpp:547-646 | One turn of the loop is one step of the search as a function on stack, visited set and caches. |
| `TwoPhase.RunsToUnique` | SVF/svf-llvm/lib/ObjTypeInference.cpp:547-646 | The caches after a query are determined by the graph and the caches before. |
| `IncompleteEntries.DroppedPushLosesSites` | SVF/svf/include/Util/WorkList.h:286-296 | Because a push of a waiting value is dropped, a query for a phi of an object and of a cast of it leaves the entry of the cast without the object, although nothing is cyclic. |
| `IncompleteEntries.PhiCycleLosesSites` | SVF/svf-llvm/lib/ObjTypeInference.cpp:560-574 | A query for one of two phis that feed each other leaves the entry of the other without an object that only the first names. |
| `IncompleteEntries.PhiAndCastLosesSites` | SVF/svf-llvm/lib/ObjTypeInference.cpp:228-515 | A query forwards for a phi that is cast and fed back leaves the entry of the cast without the load through the phi. |
| `IncompleteEntries.PhiCycleSeparated` | SVF/svf-llvm/lib/ObjTypeInference.cpp:533-653 | The two phis and their objects are separated, so the condition for exact entries is exact for such a program. |
| `SearchOrder.OrderlyKeepsExact` | SVF/svf-llvm/lib/ObjTypeInference.cpp:533-653 | A query keeps exact caches exact if the uncached values it meets are orderly: none lies on a cycle of different values, and no neighbour waits below a later one that reaches it. |
| `SearchOrder.FindAll` | SVF/svf-llvm/lib/ObjTypeInference.cpp:533-653 | Over any sequence of queries every answer is exact, whatever was asked before, if the values that each could meet are orderly. |
| `SearchOrder.CycleLosesSites` | SVF/svf-llvm/lib/ObjTypeInference.cpp:560-574 | On any graph: a query for a value on a cycle of uncached values leaves the entry of its neighbour on the cycle without every site to which that leads through the value only. |
| `SearchOrder.OrderLosesSites` | SVF/svf/include/Util/WorkList.h:286-296 | On any graph: a query for a value one of whose neighbours leads to an earlier one leaves that neighbour's entry without every site to which it leads through the earlier one only, because the push is dropped. |
| `SearchOrder.AlwaysExactIff` | SVF/svf-llvm/lib/ObjTypeInference.cpp:533-653 | If each uncached value has, against every other that leads to it, a site that the other reaches through it only, then no query leaves an inexact entry exactly if the uncached values are orderly. |
| `SearchOrder.ExactForAllSitesIff` | SVF/svf-llvm/lib/ObjTypeInference.cpp:533-653 | For any graph and any cached values: queries keep exact caches exact whichever sites the values own, exactly if the uncached values are orderly. |
| `ObjTypeInference.ObjTypeInference.BwfindAllocOfVar` | SVF/svf-llvm/lib/ObjTypeInference.cpp:533-653 | Never returns a value that is not a reachable allocation site; returns all of them for exact caches; keeps the caches sound, and exact if the values it meets are orderly. |
| `ObjTypeInference.ObjTypeInference.FindInferSites` | SVF/svf-llvm/lib/ObjTypeInference.cpp:228-515 | The same for the infer sites reachable forwards. |
| `ObjTypeInference.SelectLargestSizedType` | SVF/svf-llvm/lib/ObjTypeInference.cpp:712-726 | The first type in the order the map of sizes uses, nothing for no candidates. |
| `ObjTypeInference.SelectedIsLargestIff` | SVF/svf-llvm/lib/ObjTypeInference.cpp:712-726 | The chosen type has the most fields exactly if all candidates are below 2^31 fields or none is: the unsigned sizes are compared as signed numbers. |
| `ObjTypeInference.HugeTypeLoses` | SVF/svf-llvm/lib/ObjTypeInference.cpp:712-726 | A type of 2^31 fields loses to one of a single field. |
| `ObjTypeInference.ObjTypeInference.FwInferObjType` | SVF/svf-llvm/lib/ObjTypeInference.cpp:205-526 | A stack or global object has its own type; a heap object always a type that a reachable infer site shows, or the default type; on exact caches the one chosen among all reachable infer sites, the default exactly if there is none, with at least as many fields as every such site's type if all are below 2^31. |
| `ObjTypeInference.FindKeepsSound` | SVF/svf-llvm/lib/ObjTypeInference.cpp:533-653 | A query leaves caches that hold only sites reachable from their keys. |
| `ObjTypeInference.FindKeepsExact` | SVF/svf-llvm/lib/ObjTypeInference.cpp:533-653 | A query leaves exact caches exact if the values it meets are orderly, and values around which all is orderly stay so for later queries. |
| `Neighbours.BackwardsIff` | SVF/svf-llvm/lib/ObjTypeInference.cpp:579-640 | Backwards the search follows exactly: the operand of a cast, the operands of a phi, what is stored through a load's pointer, what direct calls pass for a parameter (the first argument if the function is variadic), and what a called function returns. |
| `Neighbours.ForwardsIff` | SVF/svf-llvm/lib/ObjTypeInference.cpp:273-515 | Forwards it follows exactly: casts and phis, loads of what was stored, also through fields of one object, calls of a returning function, and the parameter at the first position at which a call passes the value, or the loads of a variadic function's arguments. |
| `Neighbours.InferSitesIff` | SVF/svf-llvm/lib/ObjTypeInference.cpp:268-412 | A type is shown by the value itself if it is a GEP, by loads, and by stores and GEPs that use the value as their pointer. |
| `Neighbours.CallDuality` | SVF/svf-llvm/lib/ObjTypeInference.cpp:610-623 | What a call passes flows backwards from a parameter exactly if the parameter is where it flows forwards, and that is at its own position. |
| `Neighbours.ReturnDuality` | SVF/svf-llvm/lib/ObjTypeInference.cpp:624-640 | What a function returns and its calls are neighbours both ways. |
| `Neighbours.MemoryDuality` | SVF/svf-llvm/lib/ObjTypeInference.cpp:597-609 | A load and what is stored through its pointer are neighbours both ways. |
| `Neighbours.AllocSitesIff` | SVF/svf-llvm/lib/ObjTypeInference.cpp:533-653 | The sites that an exact query finds are the objects from which the value may come by these flows. |
| `Neighbours.ReachedSitesIff` | SVF/svf-llvm/lib/ObjTypeInference.cpp:228-515 | The infer sites that an exact query finds are those of the values that it may reach. |
| `ObjTypeInference.SelectedIsFirst` | SVF/svf-llvm/lib/ObjTypeInference.cpp:712-726 | Of types with as many fields the one at the least address is chosen. |
| `CppUtil.MatchedNest` | SVF/svf-llvm/lib/CppUtil.cpp:809-853 | Matched bracket pairs nest. |
| `CppUtil.InnermostInside` | SVF/svf-llvm/lib/CppUtil.cpp:809-853 | Inside a matched pair that is not innermost there is an innermost one. |
| `CppUtil.UnmarkedIsInnermost` | SVF/svf-llvm/lib/CppUtil.cpp:829-843 | A matched pair is innermost exactly if no position between its brackets belongs to a pair found so far. |
| `CppUtil.InnermostIff` | SVF/svf-llvm/lib/CppUtil.cpp:809-853 | A pair is innermost exactly if no bracket stands between the two, where the `>` of an arrow and one at the very start are no brackets. |
| `CppUtil.FindInnermostBrackets` | SVF/svf-llvm/lib/CppUtil.cpp:809-853 | For every string, balanced or not: the texts of exactly the innermost matched pairs, in order of their closing brackets. |
| `CppUtil.InnermostTextsUnique` | SVF/svf-llvm/lib/CppUtil.cpp:809-853 | For every string there is only one such list of texts. |
| `DebugTypes.TeqIsSameShape` | SVF/svf-llvm/lib/DCHG.cpp:830-940 | `teq` holds exactly for types of the same shape, defined without reference to a second type. |
| `DebugTypes.TeqEquivalence` | SVF/svf-llvm/lib/DCHG.cpp:830-940 | `teq` is an equivalence relation. |
| `DebugTypes.DocumentedIsFiner` | SVF/svf-llvm/include/SVF-LLVM/DCHG.h:215-221 | Types that are equal as the comment on `teq` describes are `teq`. |
| `DebugTypes.DocumentedDiffers` | SVF/svf-llvm/include/SVF-LLVM/DCHG.h:215-221 | A signed and an unsigned number of one size are `teq`, but not equal as the comment describes. |
| `DebugTypes.DocumentedAgreesIff` | SVF/svf-llvm/include/SVF-LLVM/DCHG.h:215-221 | Code and comment agree on two types exactly if the nodes at which these first differ are not numbers of one kind and size, nodes of different sorts over bases of one shape, or records with the same naming attributes. |
| `DCHG.DCHGraph.GetCanonicalType` | SVF/svf-llvm/lib/DCHG.cpp:724-763 | The representative is one the type is `teq` to; representatives stay pairwise different and map to themselves; a new one is added only if there was none. |
| `DCHG.DCHGraph.CanonicalizeAll` | SVF/svf-llvm/lib/DCHG.cpp:724-763 | Over any sequence of calls two types get the same representative exactly if they are `teq`. |
| `DCHG.SameRepresentativeIff` | SVF/svf-llvm/lib/DCHG.cpp:724-763 | The same for two calls between which representatives were added. |
| `DCHG.DCHGraph.GetOrCreateNode` | SVF/svf-llvm/lib/DCHG.cpp:408-424 | The node of the canonical type; existing nodes, edges and cached answers stay. |
| `DCHG.DCHGraph.AddEdge` | SVF/svf-llvm/lib/DCHG.cpp:435-469 | The edge is there, once, between the nodes of the two canonical types; no other edge changes, and no edge is ever there twice; the hierarchy stays acyclic and all cached answers right if the edge closes no cycle and brings no cached answer anything new. |
| `DCHG.EdgeKeepsAcyclic` | SVF/svf-llvm/lib/DCHG.cpp:435-450 | An edge that can be followed keeps the graph acyclic if its target could not be reached from its source. |
| `DCHG.DescendantsWithEdge` | SVF/svf-llvm/lib/DCHG.cpp:435-450 | An edge that can be followed adds exactly the descendants of its source to the nodes that descend to its target. |
| `DCHG.CacheKeptIff` | SVF/svf-llvm/lib/DCHG.cpp:225-268 | After queries an edge leaves all cached answers right exactly if each that includes the edge's target holds all descendants of the source already. |
| `DCHG.EdgeAfterQuery` | SVF/svf-llvm/lib/DCHG.cpp:225-268 | A query for a node, and then an edge into it, leaves a cached answer without the edge's source. |
| `DCHG.DescendsPartialOrder` | SVF/svf-llvm/lib/DCHG.cpp:677-686 | On an acyclic hierarchy being a transitive base is a partial order. |
| `DCHG.DescendsIff` | SVF/svf-llvm/lib/DCHG.cpp:240-254 | Descendants are what inheritance edges and edges for the standard's definitions lead to, and edges for first fields if they are asked for. |
| `DCHG.OneEdgeDescends` | SVF/svf-llvm/lib/DCHG.cpp:240-254 | Between two nodes with one edge the kind of the edge decides. |
| `DCHG.InstanceEdgesIgnored` | SVF/svf-llvm/lib/DCHG.cpp:240-248 | Instance edges change no descendants. |
| `DCHG.FirstFieldsAdd` | SVF/svf-llvm/lib/DCHG.cpp:250-254 | Asking for first fields only adds descendants. |
| `DCHG.DCHGraph.ChaOfNode` | SVF/svf-llvm/lib/DCHG.cpp:225-268 | The reflexive-transitive closure over incoming edges of the allowed kinds, from the cache or not, in either mode; both caches stay correct. |
| `DCHG.DCHGraph.Cha` | SVF/svf-llvm/lib/DCHG.cpp:225-268 | The same for any type, which may get its node only now. |
| `DCHG.DCHGraph.IsBase` | SVF/svf-llvm/lib/DCHG.cpp:677-686 | True exactly if the first type's canonical node is a transitive base of, or the same as, the second's. |
| `DCHG.DescendantsBeforeNewNode` | SVF/svf-llvm/lib/DCHG.cpp:408-424 | A node made by a later query changes no cached answer. |
| `TypeLayout.FlatOfArray` | SVF/svf-llvm/lib/LLVMModule.cpp:1362-1418 | The flattened list of an array of any number of dimensions is that of its element type, once per element. |
| `TypeLayout.LeafHasItsType` | SVF/svf/lib/MemoryModel/AccessPath.cpp:223-262 | Adding the recorded indices along a path to a scalar gives a slot of the object, and the flattened list has the scalar's type there. |
| `TypeLayout.SlotsKeepOrder` | SVF/svf-llvm/lib/LLVMModule.cpp:1362-1475 | Leaves get their slots in the order of declaration. |
| `TypeLayout.NoTwoLeavesShareASlot` | SVF/svf-llvm/lib/LLVMModule.cpp:1362-1475 | Different leaves have different slots. |
| `TypeLayout.LeavesFillSlotsIff` | SVF/svf-llvm/lib/LLVMModule.cpp:1362-1475 | The leaves take all slots, one each, exactly if the type has no array of length zero. |
| `TypeLayout.SomeSlotUnreached` | SVF/svf-llvm/lib/LLVMModule.cpp:1375-1383 | The dummy element recorded for an array of length zero is a slot that no leaf takes. |
| `TypeLayout.FieldSharedIff` | SVF/svf/lib/Graphs/IRGraph.cpp:144-168 | With arrays ignored two leaves share a flattened field exactly if they differ in array positions only, and the field has their type. |
| `TypeLayout.ElementIndexExactIff` | SVF/svf-llvm/lib/LLVMModule.cpp:1398-1403 | The recorded indices of an array are right exactly if the start of its last element fits in 32 bits: for every smaller start no product in the formula wraps to a wrong result. |
| `TypeLayout.ElementIndexExact` | SVF/svf-llvm/lib/LLVMModule.cpp:1398-1403 | In particular if the number of slots fits in 32 bits, whatever the number of elements. |
| `TypeLayout.WideArrayCollapses` | SVF/svf-llvm/lib/LLVMModule.cpp:1398-1403 | An array whose second half starts at slot 2^32 records it at slot 0. |
| `TypeLayout.CountingEndsIff` | SVF/svf-llvm/lib/LLVMModule.cpp:1405-1412 | A loop with a 32-bit counter below the 64-bit number of elements ends exactly if that number fits in 32 bits. |
| `TypeLayout.EmptyStructsNeverEnd` | SVF/svf-llvm/lib/LLVMModule.cpp:1405-1412 | An array of 2^32 empty structs has no slot at all, yet the loop over its elements never ends. |
| `TypeCollector.RecordsExactIff` | SVF/svf-llvm/lib/LLVMModule.cpp:1253-1494 | With all counters, products and truncations as in the code, every record made for a type is right exactly if the elements and the slots of each array in it, and the slots of each struct, fit in 32 bits. |
| `TypeCollector.StInfo.FillStarts` | SVF/svf-llvm/lib/LLVMModule.cpp:1398-1403 | Each element of the outermost dimension gets the index of the formula. |
| `TypeCollector.StInfo.RecordElements` | SVF/svf-llvm/lib/LLVMModule.cpp:1385-1419 | The record of an array is that of its base type repeated, with the truncated counters of the code. |
| `TypeCollector.CountElements` | SVF/svf-llvm/lib/LLVMModule.cpp:1364-1370 | The product of all dimensions modulo 2^64, and the base type. |
| `TypeCollector.LLVMModuleSet.CollectTypeInfo` | SVF/svf-llvm/lib/LLVMModule.cpp:1253-1283 | Returns the record that `Collected` gives, or none exactly if an assertion on the sizes fails there; the record is in the table, where all others stay; the size of the largest struct is kept up to date. |
| `TypeCollector.LLVMModuleSet.CollectArrayInfo` | SVF/svf-llvm/lib/LLVMModule.cpp:1362-1419 | The same for an array, also if the number of its elements is zero or wraps to zero. |
| `TypeCollector.LLVMModuleSet.CollectStructInfo` | SVF/svf-llvm/lib/LLVMModule.cpp:1425-1475 | The same for a struct; there is no record exactly if a field has none or the slot counter does not match the list of slots. |
| `NextInstructions.GetNextInsts` | SVF/svf-llvm/lib/LLVMUtil.cpp:577-600 | Appends to the caller's list what comes next, in the order of the successors, also where a block ends with an intrinsic. |
| `NextInstructions.NextFromIff` | SVF/svf-llvm/lib/LLVMUtil.cpp:577-600 | What comes next is exactly the instructions that follow in the control flow graph with everything between them an intrinsic. |
| `NextInstructions.EndsIff` | SVF/svf-llvm/lib/LLVMUtil.cpp:577-600 | Collecting it ends exactly if it meets no loop that consists of intrinsics. |
| `NextInstructions.NextInstsIff` | SVF/svf-llvm/lib/LLVMUtil.cpp:577-600 | The same for the list the builder uses, in a program without loops of intrinsics. |
| `NextInstructions.BranchTargets` | SVF/svf-llvm/lib/ICFGBuilder.cpp:186-193 | If branches go to at most two instructions, as the code asserts, those of a conditional branch are the first instruction met from each successor, in order. |
| `ICFGBuilder.NodesComplete` | SVF/svf-llvm/lib/ICFGBuilder.cpp:87-99 | Every non-intrinsic instruction has its node, a call two, and no node exists twice. |
| `ICFGBuilder.IntrinsicNodes` | SVF/svf-llvm/lib/ICFGBuilder.cpp:129-143 | An intrinsic has a node exactly if it is at the front of a block that control does not reach; no edge ends there, and one leaves from there only then. |
| `ICFGBuilder.OtherNodes` | SVF/svf-llvm/lib/ICFGBuilder.cpp:56-66 | Every function with a body has its entry and exit, and all other nodes stand for such instructions. |
| `ICFGBuilder.EdgeIffFollows` | SVF/svf-llvm/lib/ICFGBuilder.cpp:148-209 | There is an edge from the node at which control leaves u, its return node if u is a call, to v's node exactly if v follows u through intrinsics only. |
| `ICFGBuilder.OtherEdges` | SVF/svf-llvm/lib/ICFGBuilder.cpp:216-307 | Entry edges, exit edges, call and return edges to known callees with a body, and call-to-return edges for all other calls are there exactly where they should be. |
| `ICFGBuilder.OnlyTheseEdges` | SVF/svf-llvm/lib/ICFGBuilder.cpp:216-307 | There are no other edges, and every edge connects two nodes of the graph. |
| `ICFGBuilder.OtherConditions` | SVF/svf-llvm/lib/ICFGBuilder.cpp:186-205 | Only edges from conditional branches and switches carry a condition. |
| `ICFGBuilder.BranchConditions` | SVF/svf-llvm/lib/ICFGBuilder.cpp:186-193 | Of a conditional branch the edge to the first instruction met from the first successor carries 1; the second's carries 0 exactly if it leads to another instruction, else only the edge with 1 exists. |
| `ICFGBuilder.SwitchConditions` | SVF/svf-llvm/lib/ICFGBuilder.cpp:194-203 | Of a switch an edge carries a case's value exactly if that case alone leads to the target's block, which is not the default block, and the value has at most 64 bits; every other edge carries -1. |
| `ICFGBuilder.ReachableCovered` | SVF/svf-llvm/lib/ICFGBuilder.cpp:103-143 | In a block reachable from the entry every non-intrinsic instruction is found, also behind blocks that consist of intrinsics. |
| `ICFGBuilder.VisitKeeps` | SVF/svf-llvm/lib/ICFGBuilder.cpp:330-352 | A new instruction adds exactly its nodes and call edges, and the assertions against second nodes cannot fail. |
| `ICFGBuilder.NextEdgeKeeps` | SVF/svf/lib/Graphs/ICFG.cpp:334-369 | Connecting one successor keeps that each edge exists once with the condition of the first way to its target. |
| `ICFGBuilder.ICFGBuilder.ProcessFunEntry` | SVF/svf-llvm/lib/ICFGBuilder.cpp:103-124 | The entry is connected with exactly the first instructions, intrinsics skipped, which wait to be processed. |
| `ICFGBuilder.ICFGBuilder.ProcessUnreachableFromEntry` | SVF/svf-llvm/lib/ICFGBuilder.cpp:129-143 | The first instruction of each unreachable block is found, even if it is an intrinsic, and no other intrinsic. |
| `ICFGBuilder.ICFGBuilder.ProcessInst` | SVF/svf-llvm/lib/ICFGBuilder.cpp:153-207 | One instruction becomes fully connected; the assertion on two branches cannot fail. |
| `ICFGBuilder.ICFGBuilder.ProcessFunBody` | SVF/svf-llvm/lib/ICFGBuilder.cpp:148-209 | Ends with every instruction found also processed. |
| `ICFGBuilder.ICFGBuilder.ProcessFunExit` | SVF/svf-llvm/lib/ICFGBuilder.cpp:216-230 | Changes nothing: every return is connected with the exit already. |
| `ICFGBuilder.ICFGBuilder.Build` | SVF/svf-llvm/lib/ICFGBuilder.cpp:45-85 | From any program without loops of intrinsics in which the code's assertions on branches and entries hold, the graph is finished: exactly the instructions that belong there are found and processed, and the statements about finished graphs above apply to it. |
| `CHGBuilder.ClosedIsComponent` | SVF/svf-llvm/lib/CHGBuilder.cpp:582-607 | A set closed under edges in both directions, all of it connected to one class, is that class's connected component. |
| `CHGBuilder.CollectGroup` | SVF/svf-llvm/lib/CHGBuilder.cpp:582-607 | The group is exactly one weakly connected component of the class graph, disjoint from all groups before. |
| `CHGBuilder.CollectFunctions` | SVF/svf-llvm/lib/CHGBuilder.cpp:612-626 | Exactly the functions that stand in some vector of some class of the group. |
| `CHGBuilder.NumberedIff` | SVF/svf-llvm/lib/CHGBuilder.cpp:561-657 | At the end exactly the functions in the vectors of the classes have ids. |
| `CHGBuilder.StringLessIff` | SVF/svf-llvm/lib/CHGBuilder.cpp:628-642 | Names are ordered by the first character in which they differ, shorter ones first. |
| `CHGBuilder.AddressOrderIsIdOrder` | SVF/svf-llvm/lib/CHGBuilder.cpp:628-655 | Within one group functions of one name are numbered in the order of their addresses. |
| `CHGBuilder.RanksAreConsecutive` | SVF/svf-llvm/lib/CHGBuilder.cpp:628-655 | In the order of names and then addresses a group's functions are numbered one by one, and those of one name without a gap. |
| `CHGBuilder.CHGraph.NumberGroup` | SVF/svf-llvm/lib/CHGBuilder.cpp:643-655 | The group's functions get the next ids in that order; all other functions keep theirs. |
| `CHGBuilder.SameNameConsecutive` | SVF/svf-llvm/lib/CHGBuilder.cpp:563-568 | At the end no function of another name, of whatever group, has an id between two functions of one name that were numbered last in the same group. |
| `CHGBuilder.BetweenIff` | SVF/svf-llvm/lib/CHGBuilder.cpp:628-655 | A function of another name has an id between two functions of one name exactly if their last groups differ and it comes later in the first group, earlier in the second, or in a group in between. |
| `CHGBuilder.SameNameConsecutiveIff` | SVF/svf-llvm/lib/CHGBuilder.cpp:563-568 | Two functions of one name are numbered without another name in between exactly if there is no such function. |
| `CHGBuilder.SharedFunctionSplitsName` | SVF/svf-llvm/lib/CHGBuilder.cpp:628-655 | Two unrelated classes that share a function, as abstract classes do: the shared function moves away, and another name lies between it and the function of its name. |
| `CHGBuilder.DistinctIds` | SVF/svf-llvm/lib/CHGBuilder.cpp:654-655 | At the end distinct functions have distinct ids, also those that several groups share and that were numbered again. |
| `CHGBuilder.CHGraph.BuildVirtualFunctionToIDMap` | SVF/svf-llvm/lib/CHGBuilder.cpp:561-657 | The groups divide all classes and are found in the order of their first classes, their id ranges follow one another, and each function has the id from the last group that holds it. |

## Left out

- DDASolver.DDAVFSolver.HandleStore: the branch for must-aliases never runs, because `isMustAlias` is false in the base template; its argument is still looked up.
- DDASolver.DDAVFSolver.ResolveFunPtr: the answers for function pointers add no edges, because the call graph is fixed; growth of the call graph during a query is not modelled.
- DDASolver.DDAVFSolver.BackwardPropDpm: `handleBKCondition` is always true, as in the base template; the overrides in `FlowDDA` and `ContextDDA` are not modelled.
- DDASolver.DDAVFSolver.ComputeDDAPts: the base template, in which `handleOutOfBudgetDpm` does nothing (DDAVFSolver.h:723) and no item is ever recorded as out of budget. The fallback of `FlowDDA` (FlowDDA.cpp:57-60, 72-79), which puts Andersen's sets into the cache after a query out of budget and marks its item, is not modelled; with it cached sets and later answers may be as large as Andersen's, and the statements here do not cover it.
- DDASolver.DDAVFSolver.AnswerQueries: with that hook only, for the same reason; which pointers are candidates is up to the caller.
- DDASolver.DDAVFSolver.GetCachedPointsTo: a lookup does not leave an empty entry behind; an absent entry and an empty one are the same here.
- ObjTypeInference.ObjTypeInference.FwInferObjType: that the type is the largest of all reachable ones is stated for exact caches, which `SearchOrder` shows to be kept on orderly values. The type cache is recomputed from the cached sites, which gives the same types.
- SearchOrder.AlwaysExactIff: that orderly values are necessary is stated for separated values, or over all assignments of sites (`ExactForAllSitesIff`). That orderly values suffice (`OrderlyKeepsExact`) is stated for all.
- ObjTypeInference.ObjTypeInference.BwfindAllocOfVar: calls that do not return and functions without a returned value, on which the code aborts, are excluded by well-formedness.
- BreakConstantExpr.Function.ProcessInstruction: the two operand loops for phis and other instructions are one loop here; their bodies are separate.
- TypeCollector.LLVMModuleSet.CollectTypeInfo: the method is not stated for types on which a loop of the code never ends (`Collected(t).Endless?`), since there it does not return.
- ICFGBuilder.ICFGBuilder.Build: programs on which the code asserts or does not end are excluded: a loop of intrinsics, a branch that meets more than two instructions, an instruction met twice at a function's entry. The global node and its edge to the program entry, and the basic blocks' own lists of nodes, are not modelled.
- CHGBuilder.CHGraph.NumberGroup: the counter of ids does not wrap around at 2^32.
- The reachability maps of class names (`buildClassNameToAncestorsDescendantsMap`), reading vtables, and constructors in `CHGBuilder.cpp`.
- The searches for class-name sources in `ObjTypeInference.cpp`, which have the same two-phase form.
- Field lists of aggregates (`flatten`, `gatherAggs`) and vtables in `DCHG.cpp`.
- Conditional and k-limited analyses, CFL solving, abstract interpretation.
- Loading bitcode, cloning external functions, annotations, demangling, dominator trees, printing, statistics and command lines.
