# A verified model of Sattyre's solvers

This project models, in Dafny, the algorithmic core of the Sattyre repository and proves that it does what it is for:

* the PicoSAT solver shipped as Sattyre's example package (`picosat.c`): conflict-driven search with watch lists, conflict
  analysis and minimization, assumptions, reduction, simplification and restarts, and the interface on top of it;
* the algorithms that use this solver as an oracle: maximal satisfiable subsets, minimal correcting subsets, their union,
  and minimal unsatisfiable subsets of the assumptions, and the partial model that satisfies all saved clauses;
* the structures beside it: the variable heap, the 32-bit floating point scores, the random decision, the compressed
  antecedent chains;
* Sattyre's own enumerating solver, its DIMACS reader, and how these fit PicoSAT: both solvers agree, and the reader
  reads back what PicoSAT prints.

`dafny verify dfyconfig.toml` checks all of it.

## How the solver is modelled

`Solver.PicoSAT` is a class with the fields of the C structure, and its methods are the functions of `picosat.c` with
their branches, loops and order of updates. `St()` gathers the fields in a value of type `States.State`. One predicate,
`States.Invariant`, says what every step keeps:

* the trail is consistent, its levels never fall, every level has its decision, and reasons contain their literal with
  all other literals false before it; literals true at top level have a unit clause as their reason;
* all stored clauses, binary ones included, are entailed by the original clauses;
* every watched clause is found exactly once for each of its watches: on the list of that watch, or parked with the other
  watch, which is then true; once the falsity of a watch is propagated the other watch is true at no higher level;
* every original clause is a tautology, satisfied at top level, or stored and watched; a stored clause that is not watched
  is an original clause without literals that are false at top level;
* as long as assumptions wait, every decision is an assumption; the conflict clause is false and entailed;
* the counters of large clauses, their literals and the locked ones among them are the true counts.

The methods of the class are verified against this invariant and against functions on states that say what the new state
is (`StoreState`, `ForceState`, `Undone`, `Collected` and others); lemmas about these functions carry the invariant from
step to step. `Exempt` names the clauses that a step has not put right yet, such as the full clause that is watched by
false literals until the solver goes back. Two facts about whole states follow from the invariant: the stored clauses have
exactly the models of the original ones (`Equivalence.StoreMeans`), and once everything is propagated no stored clause is
unit or false (`Quiescence.SettledQuiet`).

Beside the invariant the solver keeps its heap of variables (`HeapOk`): every unassigned variable is on it, so that a
decision always finds one, and it is ordered by the scores that conflict analysis bumps. It stays ordered over a whole run
unless scores became so great that all were scaled down and a variable collapsed with the one above it; the heap records
this (`past`), and `Heap.Later` says what a search may add to it. Which variables a conflict bumps is said without the loop
that does it: those above top level that resolution meets (`Analysis.Met`), each once, in some order (`Heap.Bumps`).

`Rounds` says what a round of the search does to the state, the counters and the limits: each of its steps is taken exactly
under the condition of the code (`Rounds.Rounded`), and a decision is the next assumption, or a literal chosen by the scores
or by the random walk once all assumptions are true.

First-UIP clauses have a definition of their own (`Analysis.IsFirstUip`): what resolution along the trail leaves when, for
the first time, one literal of the current level is left. What stays of such a clause is defined without the search that
minimizes it, too (`Minimizing.Escapes`): decisions, and literals from which one comes to a decision going back through
reasons past the other literals. What an assumption depends on is also defined without the search that collects it
(`Failing.DependsOn`): it is in every set that contains the failed literal and is closed under reasons.

The search terminates: `Progress.Measure` orders states by the literals fixed at top level, by the distance to a number
of the Luby sequence that lets a restart interval outlast any stretch of search, and by a weight in which one literal of a
lower level outweighs all literals of higher levels. So a search without limits always answers.

## Files

| files | content |
|---|---|
| `Cnf`, `Problems`, `Arithmetic` | clauses, models, Sattyre's problem type, powers of two |
| `Trails`, `Inference`, `Watches`, `Links`, `Counting`, `States` | the parts of a state and its invariant |
| `Steps`, `Storing`, `Sorting`, `Adding`, `Originals`, `Forcing`, `Importing` | adding clauses and assigning forced literals |
| `Propagating`, `WatchPropagation`, `Quiescence`, `Undoing`, `Backtracking`, `Deciding` | propagation, going back, decisions |
| `Analysis`, `Minimizing`, `Failing` | conflict analysis, minimization, failed assumptions |
| `Collecting`, `Progress`, `Searching`, `Rounds`, `Verdicts`, `Equivalence` | reduction and simplification, termination, the steps of a round, what the answers and the stored clauses mean |
| `Solver` | the solver object |
| `Subsets`, `Oracles`, `Autarky`, `Witnesses` | algorithms over the solver, and inputs on which they surprise |
| `Heap`, `SoftFloat`, `Stride`, `Chains` | supporting structures |
| `NativeSolver`, `Agreement`, `Dimacs`, `Printing` | Sattyre's own code, and where it meets the solver |

## Where the code does not do what one might expect

* `picosat_save_original_clauses` only checks that no clause was ended before. If literals of an unfinished clause were
  added, the saved literals miss them (`Solver.PicoSAT.SaveOriginalClauses` gives the exact condition,
  `Witnesses.SaveTooLate` such a run). A saved clause without a true literal then gets no mark, where the code has an
  assertion (`Autarky.PickLiteral`).
* A maximal satisfiable subset is returned even if the formula itself has no model and this was not found out yet; the
  result is a maximal satisfiable subset exactly if the formula is satisfiable (`Oracles.MaximalSatisfiableSubset`;
  `Witnesses.EmptySubset` is a state in which it is not). The same holds for `Oracles.NextMss`, and the union of minimal
  correcting subsets then lists no assumption or all of them (`Oracles.Humus`).
* The header asks for a search before `picosat_maximal_satisfiable_subset_of_assumptions`, but nothing checks this. Before
  a search the assumptions made join the first of its searches, and if that fails the first assumption is passed over for
  good (`Oracles.MaximalSatisfiableSubset` gives the exact condition, `Witnesses.MssTooEarly` such a run).
* The header promises every literal of a correcting subset once; an assumption made twice can be listed twice
  (`Oracles.MissedTwice`), exactly if it is in a minimal unsatisfiable subset (`Oracles.RepeatedMissed`).
* With `fix`, `picosat_mus_assumptions` makes dropped assumptions false for good. This can leave the formula without a
  model, and then assumptions are dropped that were necessary (`Witnesses.FixedAway`, `Witnesses.FixedRun`). The result
  is a minimal unsatisfiable subset exactly if it contradicts the formula as it was; it is one without `fix`, and with it
  if the assumptions have distinct variables and occur only negated in the formula (`Oracles.MusAssumptions`).
* Scaling all scores down can make different scores equal, and a greater one zero; the heap is then not ordered any more
  (`Heap.RescaledOrdered` gives the exact condition, `Heap.RescaledUnordered` an example). Variables are still found, but
  the one decided need not be the greatest from then on (`Solver.PicoSAT.ChooseDecision`).
* `mulflt` does not round down below the exponent range, except for one narrow band of products (`SoftFloat.MulFlt`).
* `parse_dimacs_file` rejects a clause line with anything after its zero, even a blank (`Dimacs.ClauseShown`), and accepts
  negative numbers in the problem line, which wrap around (`Dimacs.HeaderShown`).

## Model

| member | source | states |
|---|---|---|
| Solver.PicoSAT.constructor | examples/package/packages/sattyre-picosat/picosat.c:1175-1286 | a new solver has no variables, clauses or assumptions, satisfies the invariant and has no limits set; its heap is ordered, and its counters and increments start as in the code |
| Solver.PicoSAT.Assign | examples/package/packages/sattyre-picosat/picosat.c:1623-1634 | one literal more at the end of the trail, with its reason and the current level; nothing else changes |
| Solver.PicoSAT.AssignForced | examples/package/packages/sattyre-picosat/picosat.c:1973-2029 | the forced literal is put on the trail with its reason, the reason is locked and counted; at top level a unit clause is learned and becomes the reason instead, and the score of the variable becomes the greatest |
| Solver.PicoSAT.ResolveTopLevelUnit | examples/package/packages/sattyre-picosat/picosat.c:1884-1936 | a literal forced at top level gets a newly learned, connected unit clause as its reason |
| Solver.PicoSAT.PushImplication | examples/package/packages/sattyre-picosat/picosat.c:2034-2061 | appends one literal to the implications of another |
| Solver.PicoSAT.ConnectHeadTail | examples/package/packages/sattyre-picosat/picosat.c:2066-2092 | a clause goes in front of the list of one watch; all other lists stay |
| Solver.PicoSAT.ConnectClause | examples/package/packages/sattyre-picosat/picosat.c:2471-2478 | the first two literals of a clause (the only one of a unit clause) become its watches |
| Solver.PicoSAT.NewClause | examples/package/packages/sattyre-picosat/picosat.c:2374-2436 | a clause gets the next index and is pushed on the stack of original or of learned clauses |
| Solver.PicoSAT.CountClause | examples/package/packages/sattyre-picosat/picosat.c:2301-2321 | only clauses of more than two literals are counted, with their literals, by kind |
| Solver.PicoSAT.StoreClause | examples/package/packages/sattyre-picosat/picosat.c:2295-2494 | binary clauses become a pair of implications; others are sorted, stored and, if asked for, watched; the first empty clause is remembered |
| Solver.PicoSAT.SettleClause | examples/package/packages/sattyre-picosat/picosat.c:2533-2570 | a clause with one unassigned and otherwise false literals forces it, one with false literals only becomes the conflict |
| Solver.PicoSAT.AddSimplifiedClause | examples/package/packages/sattyre-picosat/picosat.c:2280-2580 | at top level a clause with false literals is stored and watched in full, and a shrunken copy is learned that is stored but not watched; the copy decides what is forced |
| Solver.PicoSAT.Lock | examples/package/packages/sattyre-picosat/picosat.c:2008-2020 | the clause that is a reason is locked; locked large learned clauses are counted |
| Solver.PicoSAT.Unlock | examples/package/packages/sattyre-picosat/picosat.c:2957-2976 | the converse of locking |
| Solver.PicoSAT.Unassign | examples/package/packages/sattyre-picosat/picosat.c:2946-3028 | the literal loses value, level and reason, the reason is unlocked, its variable is on the heap again, and no clause stays parked with it; all links of all clauses stay right |
| Solver.PicoSAT.Relink | examples/package/packages/sattyre-picosat/picosat.c:2985-3014 | every clause parked with the literal is put back on the list of its other watch |
| Solver.PicoSAT.PopTrail | examples/package/packages/sattyre-picosat/picosat.c:3066-3077 | exactly the literals above the level leave the trail |
| Solver.PicoSAT.ResetQueue | examples/package/packages/sattyre-picosat/picosat.c:3079-3100 | everything left counts as propagated; the conflict is reset to the empty clause if there is one; assumptions are processed again if their level was undone |
| Solver.PicoSAT.Undo | examples/package/packages/sattyre-picosat/picosat.c:3061-3102 | the trail is cut at the level, the counters and locks are those of the rest, and the whole invariant holds again |
| Solver.PicoSAT.Prop2 | examples/package/packages/sattyre-picosat/picosat.c:3887-3983 | after a literal is propagated over its binary clauses each of them is satisfied early enough or is the conflict; the invariant holds |
| Solver.PicoSAT.Imply | examples/package/packages/sattyre-picosat/picosat.c:3905-3937 | one binary clause: skipped, conflict, or its other literal is forced |
| Solver.PicoSAT.ShouldDisconnect | examples/package/packages/sattyre-picosat/picosat.c:3987-4006 | a watch list entry may be parked with a true literal of top level or of a level below the current one |
| Solver.PicoSAT.Propl | examples/package/packages/sattyre-picosat/picosat.c:4010-4150 | after a literal is propagated over its watch list the watch invariant holds for it, or a conflict was found |
| Solver.PicoSAT.Visit | examples/package/packages/sattyre-picosat/picosat.c:4025-4149 | a visited clause keeps its place or leaves the list, and the visits still to do stay valid |
| Solver.PicoSAT.Face | examples/package/packages/sattyre-picosat/picosat.c:4046-4073 | the false watch becomes the first literal without disturbing any list |
| Solver.PicoSAT.Replace | examples/package/packages/sattyre-picosat/picosat.c:4098-4148 | another literal that is not false takes over the watch, else the clause is unit or the conflict |
| Solver.PicoSAT.MoveClause | examples/package/packages/sattyre-picosat/picosat.c:4141-4148 | the clause leaves the list of the false watch and joins that of the new one |
| Sorting.FindNonFalse | examples/package/packages/sattyre-picosat/picosat.c:4098-4148 | of the literals behind the watches the first that is not false comes to the front and those before it move up by one; without one the clause is as before |
| Sorting.ShiftUp | examples/package/packages/sattyre-picosat/picosat.c:4102-4116 | the literals passed over move up by one |
| Sorting.ShiftDown | examples/package/packages/sattyre-picosat/picosat.c:4118-4128 | the second loop restores the clause exactly |
| Solver.PicoSAT.NextBinary | examples/package/packages/sattyre-picosat/picosat.c:4331-4335 | the next trail literal is propagated over the binary clauses |
| Solver.PicoSAT.NextWatches | examples/package/packages/sattyre-picosat/picosat.c:4336-4341 | the next trail literal is propagated over the watch lists |
| Solver.PicoSAT.Bcp | examples/package/packages/sattyre-picosat/picosat.c:4321-4355 | propagation keeps the invariant; without a conflict nothing is left to propagate, and no clause is unit or false, be it original, learned, binary or a shrunken copy; every literal is counted once, and when nothing is left to propagate nothing changes |
| Solver.PicoSAT.Learn | examples/package/packages/sattyre-picosat/picosat.c:4569-4573 | the learned clause is the minimized first-UIP clause, follows from the clauses stored before, is stored, and the level to return to is the highest below the current one in it; the variables above top level that resolution meets on the way are bumped, and no other score changes |
| Solver.PicoSAT.Force | examples/package/packages/sattyre-picosat/picosat.c:4514-4547 | the only unassigned literal of the learned clause is assigned with that clause as its reason |
| Solver.PicoSAT.JumpBack | examples/package/packages/sattyre-picosat/picosat.c:4566-4574 | a conflict above top level leads to an earlier level with one literal more on it; at top level to the empty clause; scores change as the analysis of the conflict asks, except that a variable fixed at top level gets the greatest score |
| Solver.PicoSAT.AdjustReduceLimit | examples/package/packages/sattyre-picosat/picosat.c:4576-4595 | the limit on learned clauses grows by a tenth whenever an unsigned counter, restarted ever higher, runs out |
| Solver.PicoSAT.Backtrack | examples/package/packages/sattyre-picosat/picosat.c:4561-4599 | a whole conflict keeps the invariant; exactly the variables above top level that resolution meets down to the first unique implication point are bumped, once each, and the limit on learned clauses is adjusted |
| Solver.PicoSAT.BumpAndBacktrack | examples/package/packages/sattyre-picosat/picosat.c:5936-5945 | a conflict in the search raises the increment once, and the variables are bumped by the raised increment |
| Solver.PicoSAT.IncVinc | examples/package/packages/sattyre-picosat/picosat.c:4608-4616 | the increment of the heap becomes the floor of its exact product with 1.05, unless that underflows; no score changes |
| Solver.PicoSAT.Fanalyze | examples/package/packages/sattyre-picosat/picosat.c:3768-3881 | unless only decisions forced it, the negation of the failed assumption gets as its reason the learned clause of exactly the decisions it depends on; the invariant holds |
| Solver.PicoSAT.Adecide | examples/package/packages/sattyre-picosat/picosat.c:5828-5871 | the first assumption that is not true is to be decided, or fails if it is false, while every decision is an assumption; none is left exactly if all are true |
| Solver.PicoSAT.FailAssumption | examples/package/packages/sattyre-picosat/picosat.c:5840-5851 | the next assumption fails, and then every decision on the trail is an assumption |
| Solver.PicoSAT.SkipAssumption | examples/package/packages/sattyre-picosat/picosat.c:5853-5859 | a true assumption raises the level up to which assumptions reach |
| Solver.PicoSAT.ChooseDecision | examples/package/packages/sattyre-picosat/picosat.c:5887-5890 | once all assumptions are true an unassigned variable is found: if a 2 is drawn the first one on the random walk, otherwise the greatest one on the heap, as long as no variables collapsed when scores were scaled down |
| Solver.PicoSAT.AssignDecision | examples/package/packages/sattyre-picosat/picosat.c:4957-4969 | a decision opens a new level |
| Solver.PicoSAT.PickLiteral | examples/package/packages/sattyre-picosat/picosat.c:5874-5889 | the first assumption that is not true, or if all are a literal chosen by the walk or by the scores; no literal exactly if all variables are assigned or an assumption failed |
| Solver.PicoSAT.MakeDecision | examples/package/packages/sattyre-picosat/picosat.c:5874-5895 | the literal chosen opens a new level and is counted as a decision; if none is needed or an assumption fails no level is opened |
| Solver.PicoSAT.NextDecision | examples/package/packages/sattyre-picosat/picosat.c:5874-5895 | a decision brings the search closer to its end; a failed assumption is a final answer |
| Solver.PicoSAT.CollectStacks | examples/package/packages/sattyre-picosat/picosat.c:4769-4798 | both clause stacks keep their order without the collected clauses, and the counters are reduced by them |
| Solver.PicoSAT.DeleteClauses | examples/package/packages/sattyre-picosat/picosat.c:4700-4767 | collected clauses are on no list any more, the order of the others stays, and binary clauses satisfied at top level are dropped |
| Solver.PicoSAT.CollectClauses | examples/package/packages/sattyre-picosat/picosat.c:4691-4807 | collection keeps the invariant: reasons stay, and every original clause is still satisfied at top level or stored |
| Solver.PicoSAT.Reduce | examples/package/packages/sattyre-picosat/picosat.c:5516-5617 | deleted are the clauses newly satisfied at top level and the given share of the unlocked large learned ones, never a reason; if no learned clause went, the limit grows |
| Solver.PicoSAT.Simplify | examples/package/packages/sattyre-picosat/picosat.c:5331-5459 | back at top level exactly the unlocked clauses satisfied there are deleted, the stacks keep their order, and the next simplification waits for as many propagations as the literals ask for; the invariant holds |
| Solver.PicoSAT.DeleteSatisfied | examples/package/packages/sattyre-picosat/picosat.c:5403-5459 | exactly the unlocked clauses satisfied at top level are deleted |
| Solver.PicoSAT.MaybeSimplify | examples/package/packages/sattyre-picosat/picosat.c:5983-5997 | the search simplifies exactly if there are new top-level literals and enough was propagated since the last time; this brings it closer to its end |
| Solver.PicoSAT.IncLrestart | examples/package/packages/sattyre-picosat/picosat.c:4856-4875 | the next restart is a hundred times the next number of the Luby sequence away |
| Solver.PicoSAT.InitRestart | examples/package/packages/sattyre-picosat/picosat.c:4879-4894 | the restart sequence starts with its first number |
| Solver.PicoSAT.Restart | examples/package/packages/sattyre-picosat/picosat.c:4897-4954 | a restart goes back to top level unless it is skipped, sets the next one, keeps all top-level literals and never undoes a complete assignment |
| Solver.PicoSAT.MaybeReduce | examples/package/packages/sattyre-picosat/picosat.c:5999-6000 | half of the learned clauses that may go are deleted exactly if there are too many; otherwise nothing changes |
| Solver.PicoSAT.MaybeRestart | examples/package/packages/sattyre-picosat/picosat.c:6002-6003 | a restart is tried exactly if enough conflicts occurred and more than two levels are open; otherwise nothing changes |
| Solver.PicoSAT.Iteration | examples/package/packages/sattyre-picosat/picosat.c:5957-5962 | new top-level literals after a conflict restart the sequence and bring the search closer to its end; otherwise nothing changes |
| Solver.PicoSAT.ResolveConflict | examples/package/packages/sattyre-picosat/picosat.c:5936-5945 | a conflict either refutes the formula or brings the search closer to its end; the increment is raised and the variables met are bumped |
| Solver.PicoSAT.LimitReached | examples/package/packages/sattyre-picosat/picosat.c:5964-5973 | the search is given up at a limit or, between rounds of 1024 decisions, when it is interrupted, and only then |
| Solver.PicoSAT.PropagateTop | examples/package/packages/sattyre-picosat/picosat.c:5902-5909 | top-level propagation, where a conflict derives the empty clause |
| Solver.PicoSAT.StartSat | examples/package/packages/sattyre-picosat/picosat.c:5902-5929 | before the loop the search is answered, or everything at top level is propagated, simplified exactly if enough was propagated since the last time, and the limits are set |
| Solver.PicoSAT.FirstSimplify | examples/package/packages/sattyre-picosat/picosat.c:5914-5915 | the first simplification only waits for enough propagations |
| Solver.PicoSAT.InitLimits | examples/package/packages/sattyre-picosat/picosat.c:5923-5928 | the restart sequence starts, and the limit on learned clauses is 1000 unless it is set already |
| Solver.PicoSAT.Pass | examples/package/packages/sattyre-picosat/picosat.c:5931-6009 | every pass answers or makes lexicographic progress, even when learned clauses are deleted; it makes one decision at most, and none above the limit |
| Solver.PicoSAT.Round | examples/package/packages/sattyre-picosat/picosat.c:5947-6008 | the restart sequence, simplification, reduction, restart and decision come in this order, each exactly under its condition; together they make progress and keep the invariant |
| Solver.PicoSAT.Advance | examples/package/packages/sattyre-picosat/picosat.c:5999-6008 | reduction and restart, each exactly under its condition, and then one decision |
| Solver.PicoSAT.Sat | examples/package/packages/sattyre-picosat/picosat.c:5898-6010 | the search ends; its answer is right for the state it leaves; it is unknown only at a limit, and there are never more decisions than the limit allows |
| Solver.PicoSAT.ResetIncrementalUsage | examples/package/packages/sattyre-picosat/picosat.c:6465-6512 | a new use starts at top level without assumptions, with the same formula and all top-level literals |
| Solver.PicoSAT.ResetAssumptions | examples/package/packages/sattyre-picosat/picosat.c:6410-6426 | assumptions, failed assumption and conflict are forgotten, nothing else |
| Solver.PicoSAT.ResetPartial | examples/package/packages/sattyre-picosat/picosat.c:6454-6462 | the partial assignment is forgotten |
| Solver.PicoSAT.ImportLit | examples/package/packages/sattyre-picosat/picosat.c:6358-6384 | the solver knows all variables up to that of the literal; the new ones are on the heap with the least score |
| Solver.PicoSAT.Add | examples/package/packages/sattyre-picosat/picosat.c:6844-6883 | a zero adds the clause under construction to the formula, any other number extends it; a search before is forgotten; saved literals are recorded |
| Solver.PicoSAT.SimplifyAndAddOriginalClause | examples/package/packages/sattyre-picosat/picosat.c:2618-2648 | the clause joins the formula, whether it is trivial or stored |
| Solver.PicoSAT.Assume | examples/package/packages/sattyre-picosat/picosat.c:7105-7123 | the literal joins the assumptions of the next search |
| Solver.PicoSAT.Solve | examples/package/packages/sattyre-picosat/picosat.c:7126-7183 | satisfiable: the assignment satisfies all original clauses and all assumptions; unsatisfiable: no assignment does; unknown only at a limit, and there are never more decisions than the limit allows |
| Solver.PicoSAT.Deref | examples/package/packages/sattyre-picosat/picosat.c:7192-7217 | the value of the literal in the model found, 0 for unknown variables |
| Solver.PicoSAT.DerefToplevel | examples/package/packages/sattyre-picosat/picosat.c:7220-7232 | 1 if the literal is true at top level, -1 if its negation is, and 0 otherwise; a nonzero value is its value in every model of the formula |
| Solver.PicoSAT.Inconsistent | examples/package/packages/sattyre-picosat/picosat.c:7235-7239 | the empty clause was derived only if the formula has no model |
| Solver.PicoSAT.ExtractAllFailedAssumptions | examples/package/packages/sattyre-picosat/picosat.c:6555-6608 | marked are exactly the variables of assumptions from which the failed one was found false; these assumptions have no model with the formula |
| Solver.PicoSAT.FailedAssumption | examples/package/packages/sattyre-picosat/picosat.c:7307-7324 | reported is exactly an assumption whose variable the search for the reasons of the failed one reaches: the failed assumption was found false from it |
| Solver.PicoSAT.FailedAssumptions | examples/package/packages/sattyre-picosat/picosat.c:7344-7375 | listed are exactly the assumptions from which the failed one was found false, in the order they were made; they have no model with the formula |
| Solver.PicoSAT.SaveOriginalClauses | examples/package/packages/sattyre-picosat/picosat.c:8470-8475 | the saved literals record the formula from now on if and only if no literal of an unfinished clause was added before (or saving was on) |
| Solver.PicoSAT.Minautarky | examples/package/packages/sattyre-picosat/picosat.c:7025-7102 | the marks are the greedy ones of the saved clauses: one for each clause that has a true literal but no marked one yet, on the true literal that occurs most often in the clauses from there on; so they satisfy all clauses that have a true literal |
| Solver.PicoSAT.DerefPartial | examples/package/packages/sattyre-picosat/picosat.c:8486-8502 | the partial assignment has the values of the greedily marked variables and satisfies all saved clauses iff the last model does; if they record the formula every assignment that agrees with it is a model |
| Solver.PicoSAT.NoneFalsified | examples/package/packages/sattyre-picosat/picosat.c:3424-3433 | after a search without the empty clause no original clause is false |
| Steps.ForceInv | examples/package/packages/sattyre-picosat/picosat.c:1973-2029 | assigning a forced literal keeps the invariant |
| Forcing.ForcedKeeps | examples/package/packages/sattyre-picosat/picosat.c:1884-2029 | so does doing it at top level, with the learned unit clause |
| Storing.StoreKeeps | examples/package/packages/sattyre-picosat/picosat.c:2280-2494 | a stored clause is entailed and linked; only its watches may still need a step |
| Adding.ShrunkEntailed | examples/package/packages/sattyre-picosat/picosat.c:2496-2531 | resolving a clause with top-level literals gives an entailed clause |
| Adding.SortedWatches | examples/package/packages/sattyre-picosat/picosat.c:1668-1688 | sorting puts unassigned literals where they are watched |
| Sorting.SortSorts | examples/package/packages/sattyre-picosat/picosat.c:1668-1688 | unassigned literals first, then by falling level; a permutation |
| Originals.AddKeeps | examples/package/packages/sattyre-picosat/picosat.c:2280-2580 | adding an original clause at top level keeps the invariant in all cases: empty, unit, binary, long, shrunken |
| Undoing.UndoKeeps | examples/package/packages/sattyre-picosat/picosat.c:3061-3102 | going back keeps the invariant and leaves nothing to propagate |
| Backtracking.BacktrackKeeps | examples/package/packages/sattyre-picosat/picosat.c:4561-4599 | after learning and going back the learned clause can force its literal, and the invariant holds |
| Backtracking.TopBacktrackKeeps | examples/package/packages/sattyre-picosat/picosat.c:4561-4599 | a conflict at top level ends in the empty clause |
| Deciding.DecideInv | examples/package/packages/sattyre-picosat/picosat.c:4957-4969 | a decision keeps the invariant |
| Deciding.AssumeKeeps | examples/package/packages/sattyre-picosat/picosat.c:5861-5867 | deciding an assumption keeps the invariant, with its level recorded before the level exists |
| Deciding.FreeDecision | examples/package/packages/sattyre-picosat/picosat.c:5881-5891 | any unassigned literal may be decided once all assumptions are true |
| Links.SwapLinks | examples/package/packages/sattyre-picosat/picosat.c:4046-4055 | swapping the watches leaves every clause on its lists exactly once |
| Links.ParkLinks | examples/package/packages/sattyre-picosat/picosat.c:4082-4092 | a parked clause is found exactly once, with the other watch |
| Links.RewatchLinks | examples/package/packages/sattyre-picosat/picosat.c:4142-4147 | a clause with a new watch is found exactly once for it and no more for the old one |
| Links.UnparkLinks | examples/package/packages/sattyre-picosat/picosat.c:2985-3014 | putting a parked clause back keeps all lists right |
| Links.ConnectLinks | examples/package/packages/sattyre-picosat/picosat.c:2471-2478 | connecting a new clause keeps all lists right |
| Links.PurgeLinks | examples/package/packages/sattyre-picosat/picosat.c:4729-4767 | purging the lists of deleted clauses keeps all lists right |
| WatchPropagation.VisitPark | examples/package/packages/sattyre-picosat/picosat.c:4075-4095 | a clause satisfied by a true watch of a lower level meets the watch invariant when it is parked |
| WatchPropagation.VisitMove | examples/package/packages/sattyre-picosat/picosat.c:4139-4148 | a clause that found another watch meets the watch invariant |
| WatchPropagation.VisitForced | examples/package/packages/sattyre-picosat/picosat.c:4136-4138 | a clause that forced its other watch meets the watch invariant |
| WatchPropagation.VisitEnd | examples/package/packages/sattyre-picosat/picosat.c:4025-4149 | after all visits the literal counts as propagated |
| Watches.PairQuiet | examples/package/packages/sattyre-picosat/picosat.c:4321-4355 | when everything is propagated a clause with two watches is satisfied or has two unassigned literals |
| Watches.CoveredQuiet | examples/package/packages/sattyre-picosat/picosat.c:4321-4355 | when everything is propagated an original clause is satisfied or has two unassigned literals |
| Quiescence.WatchedQuiet | examples/package/packages/sattyre-picosat/picosat.c:4321-4355 | so is every watched clause, learned ones included |
| Quiescence.UnwatchedQuiet | examples/package/packages/sattyre-picosat/picosat.c:2517-2531 | so is a shrunken copy, which is not watched but has the literals of its original that are not false at top level |
| Quiescence.SettledQuiet | examples/package/packages/sattyre-picosat/picosat.c:4321-4355 | whenever everything is propagated without a conflict no clause is unit or false |
| Originals.RestCopy | examples/package/packages/sattyre-picosat/picosat.c:2496-2531 | the shrunken copy is the original clause without literals that are false at top level |
| Equivalence.StoreMeans | examples/package/packages/sattyre-picosat/picosat.c:2295-2494 | the stored clauses, binary ones included, have exactly the models of the original clauses, whatever was learned, simplified or deleted |
| Equivalence.StoreEntailsSame | examples/package/packages/sattyre-picosat/picosat.c:4569-4573 | a clause follows from the stored clauses iff it follows from the original ones |
| Equivalence.LearnedStored | examples/package/packages/sattyre-picosat/picosat.c:4569-4573 | the learned clause follows from the clauses stored when it is learned |
| Inference.ReasonEntailed | examples/package/packages/sattyre-picosat/picosat.c:1567-1634 | the reason of every true literal is entailed by the formula |
| Inference.ClosedHolds | examples/package/packages/sattyre-picosat/picosat.c:1567-1634 | what is supported by reasons holds in every model that agrees with its base |
| Trails.TrailFits | examples/package/packages/sattyre-picosat/picosat.c:1546-1565 | a trail has at most as many literals as there are variables |
| Trails.DecideOk | examples/package/packages/sattyre-picosat/picosat.c:4957-4969 | levels on the trail never fall and each has its decision |
| Analysis.FirstUip | examples/package/packages/sattyre-picosat/picosat.c:3527-3620 | resolving along the trail stops at the first unique implication point; the marked literals are exactly what resolution leaves there, and they are refuted; bumped, once each, are exactly the variables above top level that are left at some point before |
| Analysis.Scan | examples/package/packages/sattyre-picosat/picosat.c:3547-3595 | the variables of the false literals that are not marked yet are marked and, above top level, bumped once each; those of the current level are counted; the heap keeps its variables, and its order unless variables collapse; minlevel and siglevels cover the levels of the marked variables |
| Analysis.SeenIsMet | examples/package/packages/sattyre-picosat/picosat.c:3527-3620 | what was seen from some point back is exactly what resolution met before a single literal of the current level was left |
| Analysis.SeenScan | examples/package/packages/sattyre-picosat/picosat.c:3547-3595 | what is scanned next was not seen before, so nothing is bumped twice |
| Analysis.Resolve | examples/package/packages/sattyre-picosat/picosat.c:3517-3612 | one step of resolution keeps the marked literals refuted |
| Analysis.ProgressFound | examples/package/packages/sattyre-picosat/picosat.c:3596-3620 | further back on the trail more than one literal of the current level was left |
| Minimizing.Explore | examples/package/packages/sattyre-picosat/picosat.c:3653-3701 | the depth-first search marks only literals whose reasons are all marked, or takes back what it marked; the latter only if the literal it starts from is a decision or, going back from it through reasons past the literals of the clause, a decision is reached |
| Minimizing.NotRuledOut | examples/package/packages/sattyre-picosat/picosat.c:3678-3688 | what the search rules out because of its level is a literal from which a decision is reached without meeting the clause |
| Minimizing.LevelInCut | examples/package/packages/sattyre-picosat/picosat.c:3640-3652 | going back from a literal within its level one meets the clause or the decision of the level |
| Minimizing.WayEnds | examples/package/packages/sattyre-picosat/picosat.c:3703-3738 | no way back from a dropped literal past the clause ends at a decision |
| Minimizing.IsRedundant | examples/package/packages/sattyre-picosat/picosat.c:3703-3738 | a literal is dropped exactly if its reason contains only marked or top-level literals |
| Minimizing.MinimizedCut | examples/package/packages/sattyre-picosat/picosat.c:3636-3759 | leaving out redundant literals keeps the cut refuted, although they may depend on each other |
| Minimizing.Analyze | examples/package/packages/sattyre-picosat/picosat.c:3518-3765 | the learned clause is entailed, false, has one literal of the current level, and is the first-UIP clause from which exactly those literals stay that are decisions or from which, going back through reasons past the other literals of the clause, a decision is reached; at top level it is empty; bumped are exactly the variables met by resolution, not those met by minimization |
| Minimizing.Drive | examples/package/packages/sattyre-picosat/picosat.c:4358-4375 | the highest level below the current one in the learned clause |
| Failing.FailClause | examples/package/packages/sattyre-picosat/picosat.c:3768-3845 | a clause is learned unless the assumption was false by decisions alone, and contains the negations of exactly the decisions it depends on |
| Failing.ReachDecision | examples/package/packages/sattyre-picosat/picosat.c:3805-3840 | the search meets the decision of every level it meets |
| Failing.ExplainedKeeps | examples/package/packages/sattyre-picosat/picosat.c:3842-3871 | making the learned clause the reason keeps the invariant, counters included |
| Failing.MarkFailed | examples/package/packages/sattyre-picosat/picosat.c:6555-6608 | exactly the assumptions that the failed one depends on are marked, and they are refuted |
| Failing.TraceHolds | examples/package/packages/sattyre-picosat/picosat.c:6574-6592 | the decisions met imply the negation of the failed assumption |
| Verdicts.SatisfiedModel | examples/package/packages/sattyre-picosat/picosat.c:3424-3433 | a complete and completely propagated trail satisfies every original clause and assumption |
| Verdicts.LostRefutes | examples/package/packages/sattyre-picosat/picosat.c:5838-5851 | when an assumption fails the formula has no model under the assumptions |
| Verdicts.LostTopLevel | examples/package/packages/sattyre-picosat/picosat.c:5838-5851 | a single failed assumption is false at top level |
| Verdicts.VerdictSound | examples/package/packages/sattyre-picosat/picosat.c:5898-6010 | both answers of the search are right |
| Verdicts.FullTrail | examples/package/packages/sattyre-picosat/picosat.c:3424-3433 | a trail of full length assigns every variable |
| Importing.TrivialClause | examples/package/packages/sattyre-picosat/picosat.c:2583-2615 | a clause is left out exactly if a literal is true at top level or two are complementary; else repetitions are removed |
| Importing.SortPtr | examples/package/packages/sattyre-picosat/picosat.c:1737-1741 | literals sorted by where they lie |
| Importing.TrivialKeeps | examples/package/packages/sattyre-picosat/picosat.c:2623-2634 | a trivial clause needs no storing: the invariant holds with it in the formula |
| Importing.NewClauseKeeps | examples/package/packages/sattyre-picosat/picosat.c:2635-2647 | any other clause is looked after once it is added |
| Importing.ResetKeeps | examples/package/packages/sattyre-picosat/picosat.c:6410-6426 | forgetting assumptions at top level keeps the invariant |
| Collecting.CollectKeeps | examples/package/packages/sattyre-picosat/picosat.c:4691-4807 | deleting clauses that are not locked, and learned and large or satisfied at top level, keeps the invariant |
| Collecting.MarkLearned | examples/package/packages/sattyre-picosat/picosat.c:5526-5574 | the candidates are the unlocked, unsatisfied large learned clauses in stack order; the buffer sized by the counters never overflows |
| Collecting.ChooseVictims | examples/package/packages/sattyre-picosat/picosat.c:5536-5598 | what is deleted, and how many clauses that are |
| Collecting.CollectStack | examples/package/packages/sattyre-picosat/picosat.c:4769-4798 | one stack is compacted and the counters are reduced accordingly |
| Collecting.PurgeLists | examples/package/packages/sattyre-picosat/picosat.c:4729-4767 | every list keeps its order without the deleted clauses |
| Collecting.TrimLists | examples/package/packages/sattyre-picosat/picosat.c:4707-4721 | binary clauses with a literal true at top level are dropped on both sides |
| Collecting.CollectedCounts | examples/package/packages/sattyre-picosat/picosat.c:4670-4688 | the counters are the true counts again |
| Counting.LockCounts | examples/package/packages/sattyre-picosat/picosat.c:2008-2020 | locking changes the true count of locked clauses by what the code adds |
| Counting.UnlockCounts | examples/package/packages/sattyre-picosat/picosat.c:2957-2976 | unlocking changes it by what the code subtracts |
| Counting.StoreCounts | examples/package/packages/sattyre-picosat/picosat.c:2301-2321 | storing changes the true counts by what the code adds |
| Searching.SatisfiedGone | examples/package/packages/sattyre-picosat/picosat.c:5331-5459 | after simplification no unlocked clause satisfied at top level is left |
| Progress.JumpedWeight | examples/package/packages/sattyre-picosat/picosat.c:4561-4599 | going back with one literal more on the lower level makes the vector of literals per level lexicographically greater |
| Progress.GrownWeight | examples/package/packages/sattyre-picosat/picosat.c:4957-4969 | so do decisions and propagations |
| Progress.WeightBound | examples/package/packages/sattyre-picosat/picosat.c:4957-4969 | the vector, read as a number, is bounded |
| Progress.Luby | examples/package/packages/sattyre-picosat/picosat.c:4840-4850 | the restart numbers are those of the Luby sequence |
| Progress.LubyPeak | examples/package/packages/sattyre-picosat/picosat.c:4840-4850 | the sequence reaches every power of two, so restarts get as far apart as needed |
| Searching.JumpedProgress | examples/package/packages/sattyre-picosat/picosat.c:4561-4599 | a conflict raises the weight of the trail |
| Searching.DecidedProgress | examples/package/packages/sattyre-picosat/picosat.c:4957-4969 | a decision raises the weight of the trail |
| Subsets.GrowMss | examples/package/packages/sattyre-picosat/picosat.c:7568-7636 | every satisfiable subset extends to a maximal one |
| Subsets.ShrinkMus | examples/package/packages/sattyre-picosat/picosat.c:7378-7565 | every unsatisfiable subset contains a minimal one |
| Subsets.Duality | examples/package/packages/sattyre-picosat/picosat.c:7829-7909 | an assumption is in a minimal correcting subset iff it is in a minimal unsatisfiable subset |
| Subsets.BlockedMss | examples/package/packages/sattyre-picosat/picosat.c:7762-7787 | under the blocking clauses a maximal satisfiable subset is one of the formula, and new |
| Subsets.BlockedAll | examples/package/packages/sattyre-picosat/picosat.c:7729-7742 | when the blocking clauses leave no model all were found |
| Subsets.BlockOne | examples/package/packages/sattyre-picosat/picosat.c:7762-7787 | the clause of the assumptions outside a subset blocks exactly what it should |
| Oracles.Mss | examples/package/packages/sattyre-picosat/picosat.c:7568-7636 | the array is permuted, and what is collected is satisfiable with the formula and cannot be extended by any assumption tried; all are tried, except for the first one exactly if assumptions made since the last search join it and contradict the formula; each assumption is collected at most as often as it was made |
| Oracles.AddTrue | examples/package/packages/sattyre-picosat/picosat.c:7605-7622 | the inner loop, which advances the outer index, collects the assumptions that are true in the model, each position of the array once |
| Oracles.MaximalSatisfiableSubset | examples/package/packages/sattyre-picosat/picosat.c:7648-7672 | after a search the result is a maximal satisfiable subset iff the formula alone is satisfiable; before one, if the assumptions fail together, iff moreover the first assumption cannot be added to it; no assumption is listed more often than it was made, and all are made again |
| Oracles.AddBlockingClause | examples/package/packages/sattyre-picosat/picosat.c:7762-7789 | the clause of all assumptions outside the subset is added |
| Oracles.NextMss | examples/package/packages/sattyre-picosat/picosat.c:7702-7826 | what is returned is a maximal satisfiable subset iff the formula is satisfiable; then it was not found before, comes with its minimal correcting subset, and none is returned iff all were found; for other formulas an empty subset comes out once at most; subset and correcting subset together list each assumption as often as it was made |
| Witnesses.SaveTooLate | examples/package/packages/sattyre-picosat/picosat.c:8470-8475 | saving switched on in the middle of the first clause records another clause than the one added |
| Witnesses.MssTooEarly | examples/package/packages/sattyre-picosat/picosat.c:7648-7672 | before a search, for the clause -2 and the assumptions 1 and 2, the result is empty, although 1 alone is a maximal satisfiable subset |
| Witnesses.EmptySubset | examples/package/packages/sattyre-picosat/picosat.c:7648-7672 | a state with the invariant, unsatisfiable and without the empty clause, from which the empty set comes out as maximal satisfiable subset |
| Oracles.MissedOnce | examples/package/packages/sattyre-picosat/picosat.c:7762-7789 | the list of the assumptions outside a set has no repetition iff none of them was made twice |
| Oracles.RepeatedMissed | examples/package/packages/sattyre-picosat/picosat.c:7762-7789 | some correcting subset lists an assumption twice iff an assumption in a minimal unsatisfiable subset was made twice |
| Oracles.MissedTwice | examples/package/packages/sattyre-picosat/picosat.c:7762-7789 | with the only clause -1 and the assumption 1 made twice the correcting subset lists it twice |
| Oracles.Humus | examples/package/packages/sattyre-picosat/picosat.c:7829-7909 | enumeration ends; for a satisfiable formula its output lists once exactly the assumptions in some minimal unsatisfiable subset, for others it lists none or all assumptions; the formula only grows by clauses over assumptions, which are made again |
| Oracles.ListHumus | examples/package/packages/sattyre-picosat/picosat.c:7888-7906 | the marked literals in the order of their variables |
| Oracles.MusAssumptions | examples/package/packages/sattyre-picosat/picosat.c:7378-7565 | every assumption in the result is necessary, with literals fixed and no assumption made twice even if the dropped ones made before it are false; none is repeated, they keep their order, and they fail again; the result is a minimal unsatisfiable subset iff it contradicts the formula as it was, and it is one unless literals are fixed and the assumptions do not only select clauses; fixed are exactly the kept assumptions to true and the dropped ones to false |
| Oracles.SelectedRefuted | examples/package/packages/sattyre-picosat/picosat.c:7504-7529 | if assumptions on distinct variables occur only negated in the formula, fixing the dropped ones to false contradicts no kept ones that the formula allowed |
| Oracles.DropMarked | examples/package/packages/sattyre-picosat/picosat.c:7513-7529 | the marked positions become redundant, and with fix their literals false for good |
| Oracles.OthersModel | examples/package/packages/sattyre-picosat/picosat.c:7433-7456 | a model found without one assumption makes all other kept ones true and this one false, also where fixed literals take the place of assumptions |
| Oracles.KeptNeeded | examples/package/packages/sattyre-picosat/picosat.c:7444-7470 | a kept assumption is false in some model of the formula that makes the other kept ones true and, if literals are fixed, falsifies all dropped ones that were made before it |
| Witnesses.FixedAway | examples/package/packages/sattyre-picosat/picosat.c:7504-7529 | a satisfiable formula for which one of two failing assumptions is redundant, and which has no model once that one is fixed to false |
| Witnesses.FixedRun | examples/package/packages/sattyre-picosat/picosat.c:7431-7529 | every run on this formula with fix that drops the redundant assumption returns none at all, which is not a minimal unsatisfiable subset |
| Oracles.MarkUnneeded | examples/package/packages/sattyre-picosat/picosat.c:7471-7495 | marked are the assumption tried and exactly the later ones that the last search does not report |
| Oracles.ShrinkUnsat | examples/package/packages/sattyre-picosat/picosat.c:7471-7529 | dropping all later assumptions outside the reported core keeps what is left unsatisfiable and the kept ones necessary |
| Oracles.ReportedKept | examples/package/packages/sattyre-picosat/picosat.c:7478-7495 | for distinct variables exactly the assumptions found necessary before are reported again |
| Oracles.Reassume | examples/package/packages/sattyre-picosat/picosat.c:7639-7645 | the assumptions are made again in order |
| Heap.TotalOrder | examples/package/packages/sattyre-picosat/picosat.c:1744-1765 | the comparison of ranks is a strict total order |
| Heap.TopGreatest | examples/package/packages/sattyre-picosat/picosat.c:2762-2766 | the variable at the top is the greatest on the heap |
| Heap.UpStep | examples/package/packages/sattyre-picosat/picosat.c:1768-1800 | one step up leaves at most one violation, further up |
| Heap.DownStep | examples/package/packages/sattyre-picosat/picosat.c:2707-2759 | one step down along the greatest child leaves at most one violation, further down |
| Heap.VarHeap.Hup | examples/package/packages/sattyre-picosat/picosat.c:1768-1800 | sifting up restores the order if it was violated above the variable only, and keeps the positions inverse to the array in any case |
| Heap.VarHeap.Hdown | examples/package/packages/sattyre-picosat/picosat.c:2707-2759 | sifting down restores the order if it was violated below the variable only, and keeps the positions inverse to the array in any case |
| Heap.GreaterChild | examples/package/packages/sattyre-picosat/picosat.c:2718-2750 | the greatest child that is greater, or none |
| Heap.VarHeap.Hpush | examples/package/packages/sattyre-picosat/picosat.c:2792-2802 | the variable joins the heap |
| Heap.VarHeap.Hpop | examples/package/packages/sattyre-picosat/picosat.c:2769-2789 | the greatest variable leaves the heap |
| Heap.VarHeap.IncMaxVar | examples/package/packages/sattyre-picosat/picosat.c:4478-4511 | a new variable is on the heap |
| Heap.VarHeap.PutBack | examples/package/packages/sattyre-picosat/picosat.c:2981-2983 | a variable that loses its value is on the heap again |
| Heap.VarHeap.Raise | examples/package/packages/sattyre-picosat/picosat.c:1768-1800 | a higher rank keeps the order after sifting up |
| Heap.VarHeap.IncScore | examples/package/packages/sattyre-picosat/picosat.c:3449-3478 | a variable of top level is left alone; any other gets the floor of the exact sum as its score, and the heap stays ordered or, if the score is too great, all scores are scaled down; then it is recorded whether a variable collapsed with the one above it |
| Heap.VarHeap.Vrescore | examples/package/packages/sattyre-picosat/picosat.c:3435-3446 | all scores but those of fixed variables and the increment are scaled down, and the heap keeps its variables |
| Heap.VarHeap.IncVinc | examples/package/packages/sattyre-picosat/picosat.c:4468-4475 | the increment becomes the floor of its exact product with 1.05, unless that underflows |
| SoftFloat.MulRescore | examples/package/packages/sattyre-picosat/picosat.c:3435-3446 | multiplication with 2^-90 lowers the exponent; where it would underflow the result is the least number, and 2^-14 becomes zero |
| Heap.RescaledOrdered | examples/package/packages/sattyre-picosat/picosat.c:3435-3446 | scaling the scores down keeps an ordered heap ordered iff no variable collapses with the one above it, a condition on their two scores and indices |
| Heap.RescaledUnordered | examples/package/packages/sattyre-picosat/picosat.c:3435-3446 | two variables with small scores that are out of order after scaling |
| Heap.VarHeap.Bump | examples/package/packages/sattyre-picosat/picosat.c:3449-3478 | a variable above top level is bumped once: its score becomes the floor of the exact sum and, if that is too great, all scores are scaled down; otherwise nothing changes; no variable leaves the heap |
| Heap.BumpsScores | examples/package/packages/sattyre-picosat/picosat.c:3449-3478 | bumped one after the other in any order and without scaling down, each variable of a set gets the floor of the exact sum of its score and the increment, and all others keep theirs |
| Heap.BumpsOn | examples/package/packages/sattyre-picosat/picosat.c:3449-3478 | bumping the variables of two sets without a common one is bumping those of their union |
| Heap.VarHeap.FixVar | examples/package/packages/sattyre-picosat/picosat.c:1939-1960 | a fixed variable gets the greatest score and the order is kept |
| Heap.VarHeap.SetMoreImportant | examples/package/packages/sattyre-picosat/picosat.c:8369-8390 | an important variable moves up |
| Heap.VarHeap.SetLessImportant | examples/package/packages/sattyre-picosat/picosat.c:8393-8414 | an unimportant variable moves down |
| Heap.VarHeap.Sdecide | examples/package/packages/sattyre-picosat/picosat.c:5799-5825 | an unassigned variable, the greatest one if the heap is ordered; the heap is never popped when empty |
| SoftFloat.AddFlt | examples/package/packages/sattyre-picosat/picosat.c:779-811 | the greatest number not above the exact sum, with saturation |
| SoftFloat.MulFlt | examples/package/packages/sattyre-picosat/picosat.c:814-858 | the greatest number not above the exact product exactly if the operands are multipliable, a condition on their exponents and mantissas; otherwise the least number |
| SoftFloat.EpsFloor | examples/package/packages/sattyre-picosat/picosat.c:827-833 | below the exponent range the least number is the floor of the product only in a single band of products |
| SoftFloat.UnderflowExample | examples/package/packages/sattyre-picosat/picosat.c:827-833 | the least number, returned as its own square, is above the exact product and not its floor |
| SoftFloat.ValueMono | examples/package/packages/sattyre-picosat/picosat.c:951-960 | numbers are ordered like their encodings |
| SoftFloat.BumpRaises | examples/package/packages/sattyre-picosat/picosat.c:3449-3478 | bumping never lowers a score and keeps the order of two scores |
| SoftFloat.ProductMono | examples/package/packages/sattyre-picosat/picosat.c:814-858 | multiplication is commutative and monotone where it rounds down |
| Stride.Gcd | examples/package/packages/sattyre-picosat/picosat.c:5733-5756 | the greatest common divisor |
| Stride.Bezout | examples/package/packages/sattyre-picosat/picosat.c:5733-5756 | some combination of two numbers is a common divisor of them |
| Stride.StrideLength | examples/package/packages/sattyre-picosat/picosat.c:5774-5779 | the longest step up to the number drawn that is coprime to the number of variables |
| Stride.VisitsAll | examples/package/packages/sattyre-picosat/picosat.c:5781-5786 | the wrapped walk comes to every variable within as many steps as there are variables |
| Stride.VisitsOnce | examples/package/packages/sattyre-picosat/picosat.c:5781-5786 | and to each of them once |
| Stride.FindUnassigned | examples/package/packages/sattyre-picosat/picosat.c:5781-5786 | the first unassigned variable of the walk |
| Stride.Rdecide | examples/package/packages/sattyre-picosat/picosat.c:5759-5796 | an unassigned variable is found whenever the draw asks for one |
| Chains.Tracer.Bpushu | examples/package/packages/sattyre-picosat/picosat.c:2127-2136 | appends the seven-bit groups of a number |
| Chains.Tracer.Bpushd | examples/package/packages/sattyre-picosat/picosat.c:2139-2145 | appends the groups of the difference to the number before |
| Chains.Tracer.AddZhain | examples/package/packages/sattyre-picosat/picosat.c:2148-2183 | the antecedents are sorted in place and their chain is stored |
| Chains.OneZero | examples/package/packages/sattyre-picosat/picosat.c:2148-2183 | zero ends a chain and occurs nowhere else |
| Chains.ChainInjective | examples/package/packages/sattyre-picosat/picosat.c:2148-2183 | different lists of antecedents have different chains |
| Chains.ReadByte | examples/package/packages/sattyre-picosat/picosat.c:6096-6115 | shifting and or-ing in one group of bits loses nothing in 32 bits |
| Chains.Decode | examples/package/packages/sattyre-picosat/picosat.c:6096-6115 | the loop recovers exactly the list the chain was made from |
| Autarky.Minautarky | examples/package/packages/sattyre-picosat/picosat.c:7025-7102 | the marks are the greedy ones, every saved clause with a true literal gets a marked true one, and there is at most one mark per clause |
| Autarky.PickLiteral | examples/package/packages/sattyre-picosat/picosat.c:7050-7081 | a clause with a marked true literal gets no other; else the pick is, from the last literal true at top level on, the first true literal that occurs most often in the clauses from there on |
| Autarky.MarkClause | examples/package/packages/sattyre-picosat/picosat.c:7044-7092 | the pick of the clause is marked, and the table counts the literals of the clauses not yet processed |
| Autarky.CountDown | examples/package/packages/sattyre-picosat/picosat.c:7088-7092 | the literals of a processed clause leave the table |
| Autarky.CountAll | examples/package/packages/sattyre-picosat/picosat.c:7037-7042 | at first the table counts all saved literals |
| Autarky.MarkedImplies | examples/package/packages/sattyre-picosat/picosat.c:8486-8502 | agreeing on the marked variables is enough to satisfy all clauses |
| Autarky.FirstEnded | examples/package/packages/sattyre-picosat/picosat.c:7044-7046 | clauses are read from the stack as they were saved |
| Autarky.GreedyMarks | examples/package/packages/sattyre-picosat/picosat.c:7044-7092 | greedy marks satisfy all clauses that have a true literal, with at most one mark per clause |
| Autarky.GreedyOnce | examples/package/packages/sattyre-picosat/picosat.c:7044-7092 | there is only one set of greedy marks |
| Printing.BinaryOnce | examples/package/packages/sattyre-picosat/picosat.c:8209-8218 | each binary clause is printed for the earlier of its literals only |
| Printing.BinaryPrinted | examples/package/packages/sattyre-picosat/picosat.c:8241-8251 | every stored binary clause is printed |
| Printing.CountBinaries | examples/package/packages/sattyre-picosat/picosat.c:8209-8218 | the number of binary clauses that will be printed |
| Printing.PrintBinaries | examples/package/packages/sattyre-picosat/picosat.c:8241-8251 | the lines of the binary clauses |
| Printing.PrintLarges | examples/package/packages/sattyre-picosat/picosat.c:8223-8239 | the lines of the stored clauses |
| Printing.PrintUnits | examples/package/packages/sattyre-picosat/picosat.c:8253-8257 | the lines of the assumptions |
| Printing.PrintedMeans | examples/package/packages/sattyre-picosat/picosat.c:8177-8263 | the printed clauses have exactly the models of the formula under the assumptions |
| Printing.Print | examples/package/packages/sattyre-picosat/picosat.c:8177-8263 | the header counts the lines that follow, the text is read back as exactly these clauses, and they mean the formula under the assumptions |
| Dimacs.ParseDimacsFile | src/core/SattyreSAT.cpp:12-107 | the loop over the lines computes what the text says, error by error |
| Dimacs.ParseClause | src/core/SattyreSAT.cpp:66-90 | the literals up to the zero that ends the line, or the first error |
| Dimacs.ParsedInRange | src/core/SattyreSAT.cpp:66-104 | an accepted problem has nonzero, declared literals only |
| Dimacs.ClauseShown | src/core/SattyreSAT.cpp:66-90 | a clause line is accepted iff nothing follows its zero; a trailing blank is an error |
| Dimacs.HeaderShown | src/core/SattyreSAT.cpp:46-57 | the numbers of the problem line are read modulo 2^64, so a negative one is accepted |
| Dimacs.RoundTrip | src/core/SattyreSAT.cpp:12-107 | parsing the text of a problem gives back that problem, clauses in order |
| Dimacs.Accepted | src/core/SattyreSAT.cpp:12-107 | a text is accepted as a problem iff its lines without comments and blank lines are a problem line of the grammar with exactly that many clause lines behind it |
| Dimacs.Rejected | src/core/SattyreSAT.cpp:40-104 | the error of a text that is not accepted is true of its lines |
| Dimacs.CommentsSkipped | src/core/SattyreSAT.cpp:36-41 | texts with the same lines besides comments and blank ones say the same |
| Dimacs.CommentInserted | src/core/SattyreSAT.cpp:36-41 | a comment or blank line may be inserted between any two lines |
| Dimacs.CommentedRoundTrip | src/core/SattyreSAT.cpp:12-107 | a written problem is read back with any comments and blank lines between its lines |
| Dimacs.ClauseRead | src/core/SattyreSAT.cpp:66-90 | a clause line is read as a clause iff it is written by the grammar of numbers and blanks |
| Dimacs.HeaderRead | src/core/SattyreSAT.cpp:43-60 | a line is read as problem line iff it is one of the grammar |
| Dimacs.NumberRead | src/core/SattyreSAT.cpp:66-90 | a number is read iff the text starts with its numeral |
| NativeSolver.ClauseSatisfied | src/solver/Sattyre-Solver.cpp:18-31 | some nonzero literal of the clause is true under the mask |
| NativeSolver.FormulaSatisfied | src/solver/Sattyre-Solver.cpp:33-40 | all clauses are satisfied under the mask |
| NativeSolver.MaskRoundTrip | src/solver/Sattyre-Solver.cpp:66-69 | every assignment is the meaning of a mask below the limit |
| NativeSolver.MaskUnique | src/solver/Sattyre-Solver.cpp:66-69 | and of one only |
| NativeSolver.NativeSolverAdapter.constructor | src/solver/Sattyre-Solver.cpp:44-47 | no problem, no model, answer unknown |
| NativeSolver.NativeSolverAdapter.Load | src/solver/Sattyre-Solver.cpp:51-53 | the problem is replaced |
| NativeSolver.NativeSolverAdapter.Solve | src/solver/Sattyre-Solver.cpp:55-86 | up to 63 variables: satisfiable exactly if some assignment of the declared variables satisfies all clauses, with the first such model; otherwise unknown; no old model is left behind |
| NativeSolver.NativeSolverAdapter.Model | src/solver/Sattyre-Solver.cpp:88-90 | the model of the last call |
| Problems.InRangeModels | src/solver/Sattyre-Solver.cpp:18-40 | for problems in range only declared variables matter |
| Agreement.AddLits | examples/package/packages/sattyre-picosat/picosat.c:6898-6905 | the clause joins the formula |
| Agreement.SolveBoth | src/solver/Sattyre-Solver.cpp:55-86 | the enumerating solver and the clause learning solver give the same answer on every problem in range |

## Left out

- Linked lists: watch lists are sequences with the head first; the pointers inside clauses and the aliasing between lists are not modelled.
- Records per variable and literal: value, level and reason of a variable are entries of the trail, marks are sets of true literals; the counter of fixed variables is computed from the trail.
- Machine integers: counters of the solver are unbounded, except for the antecedent chains, the soft floats, the masks, the reader and the adjustment of the reduction limit, where the width matters.
- Stacks with holes: a clause that is trivial or collected leaves a null entry in the code; here the entry is absent.
- Sorting.SortSorts: does not model how equal levels are ordered (by score, then index); their literals stay in place.
- Collecting.ChooseVictims: does not model the criterion by which reduction prefers clauses (glue, activity, size), any order of the candidates is allowed; the number that goes is exact.
- Solver.PicoSAT.Reduce: leaves open which candidates go, like `Collecting.ChooseVictims`.
- Solver.PicoSAT.Restart: does not model agility, so a restart may be skipped or not.
- Solver.PicoSAT.ChooseDecision: does not model the phase a variable is decided with, nor the random numbers, which are arbitrary.
- Heap.BumpsScores: leaves open in which order the variables of a conflict are bumped; the order matters only if scores are scaled down in between.
- Heap.VarHeap.IncScore: does not model internal variables, which belong to contexts and are never bumped.
- Solver.PicoSAT.LimitReached: does not model what an interrupt function answers, it may answer anything.
- Oracles.MusAssumptions: does not model the callback; with `fix` the condition that can be checked before the call is sufficient only, the exact one is on the result, since it depends on which failed assumptions the search reports.
- Activities of clauses and their rescaling (`crescore`).
- Chains.Decode: is stated for chains the tracer wrote; other byte strings may shift beyond the word.
- Printing.Print: needs a number of variables and of clauses that the printf formats can show.
- NativeSolver.NativeSolverAdapter.Solve: needs literals of at most 64 variables when it enumerates, since other shifts are undefined; the comparison of library versions always succeeds and is absent.
- Dimacs.ParseDimacsFile: reading the file is a parameter; extraction from string streams is modelled as functions on the rest of the line.
- Failed literal probing, all-different constraints and contexts (`picosat_push`, `picosat_pop`).
- Clausal cores and trace output beyond the antecedent chains, RUP files, conversion of scores to and from text.
- Memory management, timing, statistics, progress reports and callbacks.
- Packages, bundles, the installer, manifests, the registry, dynamic loading, Lua, logging and the command line.
