# Congress: its Datalog engine, views, pub-sub and translators

Congress evaluates policies written in Datalog over tables that cloud services publish. This project
models the parts that decide whether its answers are right, and proves that they are, or exactly when.

- **Terms and rules** (`Datalog`, `Semantics`): the language, and the model of a set of rules that is not
  recursive, built stratum by stratum. Negation and builtins are included; a builtin is any function from
  inputs to an exception, a list of results or a truth value.
- **Unification and search** (`Env`, `Unify`, `Search`, `Safety`, `SearchTheorem`, `SearchAnswers`, `TopDown`):
  `Unify` has the unifier objects that point at each other and are changed in place; `Env` the same as values,
  with the theory of most general unifiers. `Search` says what the search may reach, `SearchTheorem` and
  `SearchAnswers` that this is the model, and `TopDown` is the search itself, over contexts, callers and shared
  unifiers, proved to collect exactly those answers and to leave everything as it found it.
- **Rule storage** (`FactSet`, `RuleSet`, `Reorder`, `Nonrecursive`): indexed facts, rules compared up to body
  order, and the checks and reordering that keep the search from meeting a literal it cannot evaluate.
- **Dependency graphs** (`Walks`, `Graph`, `Bags`, `DependencyGraph`, `Tallies`, `RuleDependencies`): depth-first
  search, cycles, strata, reference counts, and when a batch of updates can be undone.
- **Pub-sub** (`PubSub`): numbered snapshots and differences, delivered late, twice, in any order or never.
- **Materialized views** (`Views`, `ViewRuns`, `Database`, `SelfJoins`, `Materialized`, `ViewLimits`): delta rules,
  the event queue, proof sets, the removal of self-joins, and exactly when the method goes wrong.
- **Linear constraints** (`LpLang`): flattening, and and or as arithmetic, indicator variables.
- **Translators** (`Translators`, `TranslatedRows`): objects to rows of tables, the schema they must fit, and what
  each row says of the object it came from.

Classes and loops of the source are classes and loops here. A ghost parameter or field holds what a proof talks
about: `Heap` is the list of unifiers in use together with the bindings they hold; `Program` and `Shape` are the
rules stored and a ranking of their tables; `direct`, `held` and `bag` are what was put into a graph. The main
contracts tie the state after a call to a function or predicate of the state before; the lemmas say what that
function means.

## Where the code and its own description differ

- A view theory is said to allow recursive rules, and a comment in `process_new_bindings` says that only new
  data are queued. Nothing tests for that, and the queue never empties around a loop among tuples
  (`ViewLimits.LoopNeverEnds`): inserting ends iff there is none (`ViewLimits.EndedSettles`, `SettledEnds`).
- Deletes are propagated before it is known whether the tuple keeps another proof, so views over views lose
  tuples that are true (`ViewLimits.DeepDeleteBreaks`). A round goes wrong iff it deletes a tuple that stays
  stored and that rules use (`Views.RoundExact`); over base tables alone none does.
- `undo_changes` is said to reverse changes. It goes through them first to last and restores the counters iff it
  never deletes what is not there (`RuleDependencies.UndoExactly`), which `RuleDependencies.UndoBreaks` shows can
  happen. It does not if every formula deleted had been held before the batch.
- The bound in `indicator_to_pure_lp` is a bound on x, but the first constraint needs one on minus x
  (`LpLang.BoundTooSmall`; `LpLang.BoundsDecide` says when it suffices). `remove_and_or` is said to give an
  equivalent expression, which holds for an or only if no two arguments are true.
- `pure_lp` is said to take any comparison of arithmetic expressions. It raises an exception for one whose lower
  side is a sum or a product, as flattening puts a new variable there, which has no bound (`LpLang.PureLpRaises`).
- Rule checks count the variables of `true(x)` as bound; the search does not bind them
  (`Reorder.TrueBindsNothing`; `Reorder.OrderedIsSafe` and the three rows around it say when that matters).
  A builtin written without arguments counts as a call whatever its arity.
- A publisher that publishes before it is asked sends a difference numbered 0, which subscribers take for a reset
  (`PubSub.DifferenceZeroExactly` says when that is harmless). A snapshot numbered 0 that is repeated makes a
  subscriber forget what came after it (`PubSub.ResetForgets`).

## Model

| member | source | states |
|---|---|---|
| Env.AcyclicBind | congress/datalog/unify.py:94-99 | Binding an unbound variable to the end of another chain keeps the chains of variables acyclic, so following them terminates |
| Env.ResolveBind | congress/datalog/unify.py:113-143 | A new binding redirects exactly the chains that ended in the variable bound, and leaves all others alone |
| Env.UnifyListsExact | congress/datalog/unify.py:228-268 | The solutions after unifying two lists are exactly the old solutions that make every position equal: the result is most general |
| Env.UnifyListsComplete | congress/datalog/unify.py:228-268 | Unification succeeds iff the lists have a common instance under the current bindings |
| Env.UnifyListsExtends | congress/datalog/unify.py:228-268 | All earlier bindings stay, chains that met still meet, and the chains of every position end in the same place |
| Unify.BiUnifier.Add | congress/datalog/unify.py:94-99 | Records the binding in this unifier and returns what is needed to undo it |
| Unify.BiUnifier.Delete | congress/datalog/unify.py:100-103 | Removes the binding of one variable, if there is one, and nothing else |
| Unify.BiUnifier.ApplyFull | congress/datalog/unify.py:113-143 | Following the chain through the unifier objects ends, and ends where the bindings say, with the unifier that owns the variable at the end |
| Unify.BiUnifier.Plug | congress/datalog/unify.py:110-112 | Every argument of a literal is replaced by the end of its chain |
| Unify.BindTo | congress/datalog/unify.py:94-99 | One binding is added to one unifier object; all chains stay acyclic and all other contents stay |
| Unify.UndoAll | congress/datalog/unify.py:187-195 | Undoing a list of changes removes exactly their bindings |
| Unify.UnifyTerms | congress/datalog/unify.py:238-267 | One position: at most one binding is added, as the specification of one step says, and none when the terms differ |
| Unify.BiUnifyLists | congress/datalog/unify.py:228-268 | The loop over both lists computes the specified unification in the shared objects, returns the changes that lead back, and on failure leaves every unifier exactly as before |
| Unify.Rewind | congress/datalog/unify.py:187-195 | Undoing the changes that lead back to an earlier state restores the contents of every unifier exactly |
| Semantics.ModelFixpoint | congress/datalog/topdown.py:214-236 | The model built stratum by stratum contains exactly what the rules yield from it |
| Semantics.ModelUnique | congress/datalog/topdown.py:214-236 | An interpretation is such a fixpoint iff it is the model, so the model does not depend on the ranking of the tables |
| Semantics.CallTruth | congress/datalog/builtin.py:382-393 | A positive literal of a registered table, with as many arguments as the builtin has inputs and outputs or with none, is true iff the code returns on the inputs and what it returns is the outputs, or true if there are none |
| Semantics.LookupTruth | congress/datalog/builtin.py:382-393 | A positive literal of another table, or with another number of arguments, is true iff it is in the model |
| Semantics.OtherTruth | congress/datalog/topdown.py:289-332 | The tables true and false mean what they say, and a negated literal the opposite of the positive one |
| Search.RuleLighter | congress/datalog/topdown.py:448-480 | Replacing a goal by the body of a rule for it lowers the weight of the pending goals: tables ranked below weigh less, by more than a body can hold |
| Search.NegationLighter | congress/datalog/topdown.py:300-310 | Searching the complement of a negated literal is a lighter search |
| Safety.NegationGround | congress/datalog/topdown.py:295-298 | When the turn of a negated literal comes in a safe search all its arguments are bound: the assertion cannot fire |
| Safety.InputsGround | congress/datalog/topdown.py:362-366 | When the turn of a builtin comes in a safe search its inputs are there and bound: the assertion cannot fire |
| Safety.SafePop | congress/datalog/topdown.py:482-520 | Going on to the next goal keeps the search safe |
| Safety.SafePush | congress/datalog/topdown.py:448-480 | Going on to the body of a safe rule, whose head has been unified, keeps the search safe; a positive true is taken to bind nothing |
| Safety.CallBinds | congress/datalog/topdown.py:366-414 | After a builtin has succeeded all its arguments are bound |
| SearchTheorem.CallExact | congress/datalog/topdown.py:334-414 | A call of a builtin admits exactly the solutions in which its outputs are what its code returns; one that raises admits none |
| SearchTheorem.Sound | congress/datalog/topdown.py:263-520 | Every solution of bindings that the search reaches makes all goals true in the model, and all variables that the goals supply are bound then |
| SearchTheorem.Complete | congress/datalog/topdown.py:263-520 | Every solution of the goals is a solution of some bindings that the search reaches |
| SearchAnswers.AnswersExact | congress/datalog/topdown.py:237-261 | From any state of the bindings, an answer is reported iff some solution of the goals in the model agrees with it |
| SearchAnswers.QueryExact | congress/datalog/topdown.py:214-261 | From no bindings, the answers are exactly the choices of values for the variables that make the query true in the model |
| FactSet.MatchesKey | congress/datalog/factset.py:114-156 | A fact agrees with a partial fact iff its key over those columns is the key looked up |
| FactSet.AddIndexes | congress/datalog/factset.py:157-166 | Filing one more fact keeps an index complete and its buckets non-empty |
| FactSet.RemoveIndexes | congress/datalog/factset.py:167-171 | Taking a fact out keeps an index complete, and drops a bucket that becomes empty |
| FactSet.FactSet.Add | congress/datalog/factset.py:46-63 | Adds a fact to the set and to every index; false iff it was there |
| FactSet.FactSet.Remove | congress/datalog/factset.py:64-80 | Removes a fact from the set and from every index; false iff it was not there |
| FactSet.FactSet.CreateIndex | congress/datalog/factset.py:81-97 | The new index holds every fact under its key; an index that exists is left alone, and none is kept for an empty set |
| FactSet.FactSet.RemoveIndex | congress/datalog/factset.py:98-109 | Removes one index and nothing else |
| FactSet.FactSet.Find | congress/datalog/factset.py:114-152 | Finds exactly the facts that a linear scan finds, whether or not there is an index for the columns |
| RuleSet.KeptAsGiven | congress/datalog/ruleset.py:44-71 | A rule with a body, or an atom without variables, is kept as it is given |
| RuleSet.RuleSet.AddRule | congress/datalog/ruleset.py:44-71 | Adds a rule, or a fact if it has no body; false iff one equal up to the order of its body was there |
| RuleSet.RuleSet.DiscardRule | congress/datalog/ruleset.py:72-105 | Removes exactly the rules and facts equal to the given one up to body order; false iff there were none |
| RuleSet.RuleSet.GetFacts | congress/datalog/ruleset.py:128-168 | The facts of a table; with a positive literal exactly those that do not clash with it |
| RuleSet.RuleSet.GetRules | congress/datalog/ruleset.py:128-168 | Only rules of the table are returned, and every one whose head does not clash with the literal |
| RuleSet.MismatchClashes | congress/datalog/ruleset.py:131-147 | A fact that the index leaves out differs from the literal in a constant position |
| TopDown.ClashFails | congress/datalog/ruleset.py:128-168 | A rule whose head clashes with the literal does not unify with it, so leaving it out loses no answer |
| TopDown.CandidatesSuffice | congress/datalog/nonrecursive.py:250-259 | The answers by the rules returned for a literal are all the answers |
| TopDown.OpenUnifier | congress/datalog/topdown.py:455-462 | A new unifier comes into use for a head and is unified with the literal; on failure all is as before |
| TopDown.CloseUnifier | congress/datalog/topdown.py:464-478 | Undoing takes the new unifier out of use and restores every older one exactly |
| TopDown.TopDownTheory.TopDownFinish | congress/datalog/topdown.py:482-520 | Goes on with the next literal, the calling context, or stores an answer; all answers (one, if one was asked for) are collected, and unifiers and literal indexes are as on entry |
| TopDown.TopDownTheory.TopDownEval | congress/datalog/topdown.py:263-332 | The answers collected are exactly those of the pending goals, or at least one iff there is one when one is enough; every unifier and every context's literal index is as on entry; terminates |
| TopDown.TopDownTheory.TopDownNegation | congress/datalog/topdown.py:292-316 | Negation by failure: goes on iff the complement has no answer |
| TopDown.TopDownTheory.Refutes | congress/datalog/topdown.py:295-311 | A search of its own, for one answer, decides whether the complement has any; it leaves no trace |
| TopDown.TopDownTheory.TopDownBuiltin | congress/datalog/topdown.py:334-414 | Calls the code with the bound inputs; a failure or an exception gives no answers, outputs are unified with the remaining arguments and undone |
| TopDown.TopDownTheory.ContinueWith | congress/datalog/topdown.py:387-414 | The answers with the outputs unified are collected, and the bindings are undone |
| TopDown.TopDownTheory.Inputs | congress/datalog/topdown.py:344-366 | The values passed to the code are those of the input arguments, all of which are bound |
| TopDown.TopDownTheory.TopDownTh | congress/datalog/topdown.py:448-480 | The answers collected over all candidate rules are exactly the answers of the goals; stops early only when one is enough |
| TopDown.TopDownTheory.TryRule | congress/datalog/topdown.py:453-478 | The answers by one rule: head unified in a new unifier, body proved, bindings undone |
| TopDown.TopDownTheory.TryUnified | congress/datalog/topdown.py:459-478 | With the head unified: the answers are those of the body and the pending goals from the bindings then, and everything is restored |
| TopDown.TopDownTheory.TopDownBody | congress/datalog/topdown.py:463-478 | A body is proved in a context of its own, after which what was pending is proved |
| TopDown.TopDownTheory.HeadIndex | congress/datalog/nonrecursive.py:250-259 | Every rule of the table that does not clash with the literal, and only rules of the table |
| TopDown.TopDownTheory.Flatten | congress/datalog/topdown.py:496-504 | The answer stored gives each variable asked for the end of its chain |
| TopDown.TopDownTheory.TopDownEvaluation | congress/datalog/topdown.py:214-261 | With find_all on, exactly the choices of values that make the literals true in the model; with it off, at most one, and none only if there is none |
| TopDown.TopDownTheory.Select | congress/datalog/topdown.py:116-135 | The instances of a literal, negated or a builtin too, that are true in the model: all of them, or one if there is one. With find_all on, a positive literal gives exactly the instances that the code of its builtin answers, or those in the model if it is looked up |
| TopDown.TrueInstances | congress/datalog/topdown.py:334-414 | A literal is a true instance of a query iff it has one value for each variable and, for a builtin, its last arguments are what the code returns on the first, or, for another table, it is in the model |
| TopDown.AtomQuery | congress/datalog/topdown.py:116-135 | Every atom may be asked for: the search binds all of its variables |
| TopDown.TopDownTheory.SelectRule | congress/datalog/topdown.py:116-135 | The instances of a rule whose body is true in the model: all of them, or one if there is one |
| Reorder.Reordering.MakeSafePlus | congress/datalog/compile.py:1494-1508 | Placing a literal and then all waiting literals that became safe loses none and leaves none that could be placed |
| Reorder.ReorderForSafety | congress/datalog/compile.py:1475-1533 | A permutation of the body in which every variable of a negated literal, and every variable among the inputs of a builtin, is in an earlier literal; fails iff there is no such permutation; a body in order is unchanged |
| Reorder.NeedsAreWants | congress/datalog/topdown.py:348-366 | What the search needs bound before a literal is exactly what reordering waits for, the tables true and false apart |
| Reorder.RuleHeadSafety | congress/datalog/compile.py:1569-1589 | One error for each variable of the head that is not in the body |
| Reorder.BoundExactly | congress/datalog/topdown.py:263-332 | Whenever a literal of a query comes up in the search, a variable is bound iff a literal before it, not counting a positive true, has it |
| Reorder.OrderedIsSafe | congress/datalog/compile.py:1475-1533 | A body in order is safe iff no literal needs a variable that, of the literals before it, only a positive true has |
| Reorder.SafeNeedsMet | congress/datalog/topdown.py:295-298 | If the body is safe, every literal that comes up in the search of any program has the variables it needs bound |
| Reorder.UnsafeNeverMet | congress/datalog/topdown.py:348-366 | If it is not, there is a literal that never has what it needs when it comes up, in any program |
| Reorder.TrueBindsNothing | congress/datalog/topdown.py:428-435 | The body true(x), not q(x) is in order, yet in every program the negated literal comes up with x unbound |
| Reorder.AdmittedIsSafe | congress/datalog/compile.py:1569-1589 | A rule that passed both checks is safe to evaluate iff its builtins have the arguments they read and neither body nor head needs a variable that only a true has |
| Reorder.SameMeaning | congress/datalog/compile.py:1475-1533 | Reordering does not change what a body means |
| Reorder.ReorderedIsSafe | congress/datalog/compile.py:1475-1533 | If no true has a variable that another literal needs, or that of the rest only the head has, the rule is safe to evaluate whatever order its body came in |
| Nonrecursive.NonrecursiveRuleTheory.UpdateOne | congress/datalog/nonrecursive.py:148-158 | One event: an exception iff there is no safe order, and then no change; otherwise the reordered rule is added or every equal one removed |
| Nonrecursive.UpdateKeepsSafe | congress/datalog/nonrecursive.py:135-163 | A theory whose rules can be evaluated stays so through an insert iff the rule stored, as reordered, can be; a delete never matters |
| Walks.LongWalkCycles | congress/datalog/utility.py:224-226 | A walk across as many labelled edges as there are nodes goes round a cycle with a label |
| Walks.StrataExcludeCycles | congress/datalog/utility.py:202-228 | A graph with strata has no cycle with a listed label |
| Walks.NoCycleHasStrata | congress/datalog/utility.py:202-228 | A graph without such a cycle has strata |
| Walks.ReachesStays | congress/datalog/utility.py:181-200 | Whatever is reachable from an explored node has been explored |
| Walks.CyclesAgree | congress/datalog/utility.py:239-246 | A cycle of edges exists iff a closed path of nodes does |
| Graph.RisingTooHigh | congress/datalog/utility.py:224-226 | A stratum above the number of nodes proves a labelled cycle: giving up there rejects no stratifiable graph |
| Graph.Graph.AddEdge | congress/datalog/utility.py:110-123 | Adds both nodes and the edge, and nothing else |
| Graph.Graph.DeleteNode | congress/datalog/utility.py:102-109 | Deletes the node and the edges that leave it |
| Graph.Graph.DeleteEdge | congress/datalog/utility.py:124-135 | Deletes one edge with its label, and no node |
| Graph.Graph.Stratification | congress/datalog/utility.py:202-228 | Terminates; None iff some cycle contains a listed label; otherwise the least assignment of at least 1 that satisfies every edge |
| Graph.Graph.Dfs | congress/datalog/utility.py:181-200 | Visits only what is reachable, leaves no successor of a visited node unvisited, and records only closed paths to the target, at least one if an edge to it was met |
| Graph.Graph.DepthFirstSearch | congress/datalog/utility.py:148-159 | Visited are exactly the nodes reachable from the roots that are in the graph |
| Graph.Graph.FindReachableNodes | congress/datalog/utility.py:313-320 | Exactly the nodes reachable from the roots |
| Graph.Graph.InvertedEdgeGraph | congress/datalog/utility.py:288-299 | The same nodes with every edge turned round |
| Graph.Graph.FindDependentNodes | congress/datalog/utility.py:301-311 | Exactly the nodes given and the nodes that reach one of them that is in the graph |
| Graph.Graph.EnumerateCycles | congress/datalog/utility.py:161-167 | Every cycle recorded is the arcs of a closed walk, and through every node that is on a cycle one is recorded |
| Graph.ArcsAreSteps | congress/datalog/utility.py:323-345 | A cycle is recorded as exactly the steps from one node to the next |
| Graph.Graph.HasCycle | congress/datalog/utility.py:239-246 | True iff the graph has a directed cycle |
| DependencyGraph.BagGraph.CountNode | congress/datalog/utility.py:358-364 | One more of a node |
| DependencyGraph.BagGraph.DiscountNode | congress/datalog/utility.py:366-373 | One less of a node, ignored if there is none; with the last one the node and its adjacency set go |
| DependencyGraph.NearlyDrop | congress/datalog/utility.py:366-373 | Dropping the adjacency set of a node that is no longer counted loses no edge still held |
| DependencyGraph.BagGraph.AddEdge | congress/datalog/utility.py:375-385 | One more of an edge and of both its ends; if counters, nodes and adjacency are those of the edges and nodes held, they stay so |
| DependencyGraph.BagGraph.DeleteNode | congress/datalog/utility.py:366-373 | One less of a node whatever the state of the counters; the graph stays that of what is held if the node was inserted on its own account |
| DependencyGraph.BagGraph.DeleteEdge | congress/datalog/utility.py:387-401 | One less of an edge and of both its ends, ignored if it is not there; if counters, nodes and adjacency are those of what is held, they stay so |
| RuleDependencies.RuleDependencyGraph.FormulaUpdate | congress/datalog/compile.py:1272-1305 | After any inserts and deletes the counters are what the changes returned make of them, and the changes are those of the formulas; if each deletion is of a formula held, the graph is that of the bag of formulas left |
| RuleDependencies.RuleDependencyGraph.UndoChanges | congress/datalog/compile.py:1307-1330 | Undoing, first change first: the counters end as the opposite changes make them; the whole graph is that of before if every node and arc to be deleted on the way is held then |
| Tallies.UndoneExactly | congress/datalog/compile.py:1307-1330 | Making any changes and undoing them restores all counters iff every step, there and back, finds what it counts down |
| Tallies.FindsAllExactly | congress/datalog/utility.py:366-401 | Every step finds what it counts down iff no prefix of the changes, by its net change, takes a counter below 0 |
| RuleDependencies.UndoExactly | congress/datalog/compile.py:1307-1330 | For a batch that deletes only what is held: undoing restores all counters iff no count after the batch, less the net change undone so far, is ever below 0 |
| RuleDependencies.HeldBeforeUndoable | congress/datalog/compile.py:1307-1330 | So it is if all formulas deleted had been held before the batch: each node and arc is then there to be deleted |
| RuleDependencies.UndoBreaks | congress/datalog/compile.py:1307-1330 | A batch that inserts an atom and deletes it again leaves a node behind when it is undone |
| RuleDependencies.HistoryForgotten | congress/datalog/compile.py:1238-1330 | Two graphs that hold the same bag of formulas agree in every counter, node and edge, however they came to hold it |
| RuleDependencies.GraphSays | congress/datalog/compile.py:1358-1392 | The nodes are the tables that the formulas mention; the edges lead between head and body, the way the graph was set up, labelled true exactly under negation |
| RuleDependencies.RuleDependencyGraph.Stratify | congress/datalog/compile.py:1219-1235 | The least strata from 1 up in which every table is at least as high as those it is defined by and higher under negation; None iff there are none |
| RuleDependencies.RuleDependencyGraph.HasCycle | congress/datalog/compile.py:1207-1216 | With edges from head to body: a cycle iff no ranking puts every body below its head, that is, iff the rules are recursive |
| RuleDependencies.RuleDependencyGraph.UpdateUnlessRecursive | congress/policy_engines/agnostic.py:1110-1121 | A batch of rules is applied iff the result is not recursive; if it would be, the changes are undone, and the graph is as before if the rules deleted had been held before the batch |
| RuleDependencies.CycleMeansRecursive | congress/datalog/compile.py:1353-1393 | The arcs of the formulas have a cycle iff the rules cannot be ranked |
| PubSub.DataService.Publish | congress/dse2/data_service.py:229-262 | By differences: what to add and delete relative to the last data, no message if nothing changed, the next number; by snapshot: the next number, and the last data are not refreshed. A difference is not sent iff there is none, and leads from the last data to the new data, which become the last |
| PubSub.DataService.GetLastPublishedDataWithSeqnum | congress/dse2/data_service.py:455-460 | The current number and data, starting at 0 with a snapshot; an exception after publishing only by snapshots |
| PubSub.DataService.Unsubscribe | congress/dse2/data_service.py:281-313 | Forgets the number and the queue of one channel and of no other |
| PubSub.DataService.ProcessQueuedMsg | congress/dse2/data_service.py:347-372 | Terminates, having taken from the queue exactly the messages that follow on, in order, and those that are old; a queued difference numbered 0 resets |
| PubSub.DataService.ReceiveDataSequenced | congress/dse2/data_service.py:315-413 | The new number, queue and copy for every case: no number, first snapshot, first difference, number 0, old, next and future; other channels are untouched |
| PubSub.UnnumberedReceived | congress/dse2/data_service.py:376-378 | A message without a number is processed at once: a snapshot replaces the copy, a difference deletes and adds; nothing else changes |
| PubSub.FirstIs | congress/dse2/data_service.py:335-345 | The first message of a queue has the lowest number, and is a difference if there is one with that number |
| PubSub.SettlesFaithful | congress/dse2/data_service.py:347-413 | Draining a queue of honest messages leads from a right copy to a right copy and leaves nothing of use in the queue |
| PubSub.ReceiveSafe | congress/dse2/data_service.py:315-413 | Receiving an honest message, not a difference numbered 0, keeps the copy right and the queue at rest |
| PubSub.PublishSafe | congress/dse2/data_service.py:229-262 | Publishing by differences keeps the outbox in step with the history and every message honest |
| PubSub.PublishRecords | congress/dse2/data_service.py:229-262 | The history goes on with the data published, unless they are the last data already, or no rows at the start |
| PubSub.CaughtUp | congress/dse2/data_service.py:229-413 | Over every run without a difference numbered 0 delivered: a subscriber that holds the last number has the data published last |
| PubSub.SubscribeAnswers | congress/dse2/data_service.py:455-460 | Every subscriber to a table published by differences is answered with the last number and table |
| PubSub.SubscribeSafe | congress/dse2/data_service.py:455-460 | Answering a subscriber keeps the outbox in step with the history and the answer is honest |
| PubSub.RunSafe | congress/dse2/data_service.py:229-460 | Over every run, under loss, repetition, reordering and resubscription, without a difference numbered 0 delivered: a subscriber at number r has the r-th table published |
| PubSub.DifferenceZeroExactly | congress/dse2/data_service.py:392-398 | A difference numbered 0 that comes to a subscriber with a number resets the number but not the copy; the copy is right afterwards iff all that the subscriber had was published at first |
| PubSub.QueuedDifferenceZeroExactly | congress/dse2/data_service.py:380-398 | The same for a difference numbered 0 that was queued before the first snapshot |
| PubSub.DifferenceZeroBreaks | congress/dse2/data_service.py:392-398 | A run in which a subscriber at number 0 has more than was published under number 0 |
| PubSub.ConvergesToGap | congress/dse2/data_service.py:347-413 | A subscriber that has had a snapshot s and s+1..n but not n+1, no snapshot before s or beyond n, and anything else in any order and number, without a reset, is at n with the n-th table, and its queue holds exactly the messages delivered above n |
| PubSub.Converges | congress/dse2/data_service.py:347-413 | With nothing delivered above n the queue is empty |
| PubSub.OrderDecides | congress/dse2/data_service.py:347-413 | With a snapshot beyond a gap the final number depends on the order of delivery |
| PubSub.ResetForgets | congress/dse2/data_service.py:392-398 | A snapshot numbered 0 that comes to a subscriber with a number makes it forget all that came before |
| Views.SatInsert | congress/datalog/materialized.py:487-563 | A new fact makes true exactly the rule instances that use it, since no rule uses a fact twice |
| Views.SatDelete | congress/datalog/materialized.py:487-563 | A deleted fact takes with it exactly the instances that use it; they were all true if it was there and all false if not |
| Views.BatchDone | congress/datalog/materialized.py:565-591 | Working off the events of one change adds exactly their proofs to the views, or takes exactly those away |
| Views.RoundExact | congress/datalog/materialized.py:487-513 | For any rules, views over views included: a round of the queue keeps the views exactly what the rules make of the stored tuples, as soon as what is queued is done, iff it does not delete a tuple that is stored, stays stored, and is used by some instance of a rule |
| Views.RunExact | congress/datalog/materialized.py:487-513 | All states of a run are right in that sense iff no round deletes a tuple that lingers |
| Views.FlatRound | congress/datalog/materialized.py:487-513 | Rules over base tables only: no round deletes a tuple that lingers |
| ViewRuns.UniverseCloses | congress/datalog/materialized.py:487-513 | The rules do not lead out of the finite set of facts made of the tables, widths and constants given |
| ViewRuns.AcyclicIffRanked | congress/datalog/materialized.py:487-513 | In a closed finite set of tuples none is among its own causes iff the tuples can be ranked above their causes |
| ViewRuns.RoundLightens | congress/datalog/materialized.py:487-513 | Every round makes the queue lighter, events weighted by the rank of their tuple, under inserts and deletes |
| ViewRuns.RunsEnd | congress/datalog/materialized.py:487-513 | So no run has more rounds than the queue has weight at the start |
| ViewRuns.GrowingRound | congress/datalog/materialized.py:487-591 | Inserting only: every round keeps all that is stored true, and all that the stored facts make true stored or queued |
| ViewRuns.GrownIsModel | congress/datalog/materialized.py:487-591 | With the queue empty the stored tuples are exactly the model of the rules and facts |
| ViewRuns.ThinDeletes | congress/datalog/materialized.py:487-513 | Deleting base facts from views that are right lets no tuple linger, through however many levels, if every tuple that the deletes reach and that rules use has one proof |
| ViewRuns.RightIsModel | congress/datalog/materialized.py:487-591 | Views that are right leave exactly the model of the rules and base facts stored, after inserts and deletes alike |
| Database.Subtract | congress/datalog/database.py:62-71 | The proofs of one collection that are not in another |
| Database.Join | congress/datalog/database.py:73-81 | The proofs of both collections |
| Database.Includes | congress/datalog/database.py:89-95 | Whether all of some proofs are in the collection |
| Database.Database.IsNoop | congress/datalog/database.py:234-250 | An insert is ignored iff the tuple is there with all the proofs; a delete is ignored unless it is there with all of them |
| Database.Database.Modify | congress/datalog/database.py:337-353 | Insert joins proofs; delete removes proofs and, with the last, the tuple; no other tuple changes; the result is false iff the event is a no-op |
| Database.Database.InsertActual | congress/datalog/database.py:355-375 | Joins the proofs to a stored tuple or stores a new one; rows stay distinct |
| Database.Database.DeleteActual | congress/datalog/database.py:377-393 | Takes the proofs away, and the tuple if none is left |
| Database.Match | congress/datalog/database.py:136-154 | Extends a binding so that a literal's arguments are the stored row, or fails if no extension does |
| Database.Database.Evaluate | congress/datalog/materialized.py:609-610 | Exactly the bindings of the literals' variables that extend the given one and make all literals stored facts |
| SelfJoins.RenamedApart | congress/datalog/materialized.py:249-268 | After renaming, no two literals of a body have the same table and arity |
| SelfJoins.EliminateSelfJoins | congress/datalog/materialized.py:223-280 | The rules with repeated tables renamed, and the defining rules for exactly the copies needed |
| SelfJoins.EliminatedGood | congress/datalog/materialized.py:223-280 | The rules that come out are free of self-joins and as safe as those that went in |
| SelfJoins.SelfJoinFreeStays | congress/datalog/materialized.py:223-280 | A rule without self-joins comes out as it is and needs no copies |
| SelfJoins.EliminationKeepsMeaning | congress/datalog/materialized.py:223-280 | Every table of the policy has in the model of the new rules the contents it had, and each new table those of the table it copies |
| SelfJoins.EliminationFits | congress/datalog/materialized.py:223-280 | The elimination makes no policy recursive |
| Materialized.SameDeltaSameRule | congress/datalog/materialized.py:49-54 | Rules that give equal delta rules are equal up to the order of their bodies |
| Materialized.DeltaRuleTheory.Insert | congress/datalog/materialized.py:115-130 | Ignores a rule that is there up to body order; otherwise files one delta rule for each literal of its body under the table that triggers it |
| Materialized.CausesOfAll | congress/datalog/materialized.py:515-526 | The delta rules of a table together find exactly the rule instances that a change of that table affects |
| Materialized.CausesApart | congress/datalog/materialized.py:515-526 | No two delta rules find the same instance |
| Materialized.MaterializedViewTheory.ProcessNewBindings | congress/datalog/materialized.py:565-591 | Queues one event for each tuple that the bindings generate, with exactly the proofs that generate it |
| Materialized.MaterializedViewTheory.PropagateRule | congress/datalog/materialized.py:528-563 | Queues exactly what a change of one tuple causes through one delta rule, seen before the change is made |
| Materialized.MaterializedViewTheory.Propagate | congress/datalog/materialized.py:515-526 | Queues exactly what a change of one tuple causes |
| Materialized.MaterializedViewTheory.ProcessEvent | congress/datalog/materialized.py:493-512 | A rule is added and what it says about the data is queued; a change of data is propagated first and made afterwards |
| Materialized.MaterializedViewTheory.ProcessQueue | congress/datalog/materialized.py:487-513 | Terminates with an empty queue if the tuples can be ranked, and goes through a run of rounds from the state at the start to that at the end |
| Materialized.MaterializedViewTheory.EnqueueAny | congress/datalog/materialized.py:452-481 | Queues a fact as it is, and a rule with its self-joins removed together with the rules for the new tables |
| Materialized.MaterializedViewTheory.Update | congress/datalog/materialized.py:363-373 | Over every sequence of batches of new rules and of inserts and deletes of base facts, recursive rules included if no tuple is among its own causes: rules stored are those asked for, the queue empties, and views are as the next rows say |
| Materialized.NonrecursiveSettles | congress/datalog/materialized.py:487-513 | Rules that are not recursive always let the queue empty |
| Materialized.InsertsGiveTheModel | congress/datalog/materialized.py:487-591 | If nothing has been deleted, the stored tuples are exactly the model of the rules and facts asked for, in whatever order they came |
| Materialized.CleanRunsGiveTheModel | congress/datalog/materialized.py:487-591 | The same after any inserts and deletes, views over views included, if no deleted tuple has lingered and facts are given for no table that a rule defines |
| Materialized.ThinDeletesStayClean | congress/datalog/materialized.py:363-373 | For a batch of such deletes this can be told before the update, from the rules and the stored tuples: no deleted tuple lingers, so the views stay right |
| Materialized.CleanViewsAreExact | congress/datalog/materialized.py:487-591 | Then each view tuple has exactly the proofs that hold of what is stored, and is stored iff there is one |
| Materialized.FlatViewsAreExact | congress/datalog/materialized.py:487-591 | If all rules are over base tables, after any inserts and deletes of base facts a view tuple has exactly the proofs that hold of the facts left, and is stored iff there is one |
| ViewLimits.DeepDeleteBreaks | congress/datalog/materialized.py:509-510 | Deleting through two levels is wrong: a tuple with a second proof lingers, and what was derived from it is deleted |
| ViewLimits.LoopNeverEnds | congress/datalog/materialized.py:487-513 | An event about a tuple on a loop of rule instances keeps the queue from ever emptying, if the other tuples that the loop needs are stored and no delete reaches them |
| ViewLimits.EndedSettles | congress/datalog/materialized.py:487-513 | A run that only inserts, from nothing, comes to an end only if the facts lead to no tuple that is among its own causes |
| ViewLimits.SettledEnds | congress/datalog/materialized.py:487-513 | And if they lead to none there is a bound on all runs, with inserts and deletes |
| LpLang.LpLang.Flatten | congress/datalog/arithmetic_solvers.py:385-419 | The recursion with its counter computes the specified flattening |
| LpLang.FlattenMeans | congress/datalog/arithmetic_solvers.py:385-419 | Under the support equations the new expression has the value of the old |
| LpLang.FlattenDefines | congress/datalog/arithmetic_solvers.py:438-450 | The new variables are distinct, each is defined once, and its definition uses only earlier ones |
| LpLang.FlatteningConservative | congress/datalog/arithmetic_solvers.py:385-450 | Every assignment extends in exactly one way to the new variables so that all support equations hold, and then the new expression has the value of the old |
| LpLang.AndOrAsArithmetic | congress/datalog/arithmetic_solvers.py:253-258 | Over 0/1 values a product is an and; a sum is an or iff at most one of the values is 1, and is zero iff the or is false |
| LpLang.RemoveAndOrMeans | congress/datalog/arithmetic_solvers.py:233-258 | Replacing the outermost ands and ors keeps the value if no or has two true arguments |
| LpLang.LtZeroExactly | congress/datalog/arithmetic_solvers.py:314-351 | x < 0 says what the comparison says iff a comparison that allows equality is not missed by less than the threshold |
| LpLang.LtZeroInteger | congress/datalog/arithmetic_solvers.py:314-351 | Between whole numbers x < 0 always says what the comparison says |
| LpLang.UpperBoundHolds | congress/datalog/arithmetic_solvers.py:353-383 | The bound computed for a sum of products that are not negative is a bound |
| LpLang.BoundAboveX | congress/datalog/arithmetic_solvers.py:353-383 | For such sides x stays below the bound used |
| LpLang.ConstraintsForce | congress/datalog/arithmetic_solvers.py:295-312 | The two constraints force a 0/1 variable to be 1 exactly when x < 0, whatever the bound |
| LpLang.ConstraintsAllow | congress/datalog/arithmetic_solvers.py:295-312 | The right value satisfies the constraints iff the bound holds on the side that matters |
| LpLang.IndicatorForced | congress/datalog/arithmetic_solvers.py:260-312 | An assignment that satisfies the lowered constraints satisfies the equation, for strict comparisons and between whole numbers |
| LpLang.IndicatorAllowed | congress/datalog/arithmetic_solvers.py:260-312 | An assignment that satisfies the equation satisfies the constraints iff minus x is at most the bound where the comparison holds |
| LpLang.BoundsDecide | congress/datalog/arithmetic_solvers.py:295-312 | For sides with different variables: no right assignment within the bounds is ruled out iff the bound of one side, less the least value of the other, is within the bound used |
| LpLang.SufficientBoundAllows | congress/datalog/arithmetic_solvers.py:295-312 | For any sums of products that bound suffices |
| LpLang.BoundTooSmall | congress/datalog/arithmetic_solvers.py:296-312 | It can fail to: for y = (p < q) with p at most 0 and q at most 5, the constraints rule out q = 5 |
| LpLang.LpLang.PureLp | congress/datalog/arithmetic_solvers.py:191-213 | Flattens, then replaces ands, ors and indicators in each flat expression; an exception iff one of them raises one. No and, no or and no variable equated with a comparison is left |
| LpLang.LoweringRewrites | congress/datalog/arithmetic_solvers.py:191-312 | Every part that a new variable stands for is said by the constraints to be what it becomes: an and a product, an or a sum, arithmetic as it is, of constants and variables, and a comparison the two constraints with the bound of its lower side; the whole expression likewise |
| LpLang.PureLpRaises | congress/datalog/arithmetic_solvers.py:191-213 | Raises an exception iff the expression equates a variable with a comparison that cannot be lowered, or has one further down where a new variable stands for it; that is an equality, or a comparison whose lower side is compound or a variable without a bound |
| LpLang.PureLpForces | congress/datalog/arithmetic_solvers.py:191-213 | End to end: whatever satisfies the linear constraints satisfies the expression, if no or has two true arguments and indicators are 0 or 1, over whole numbers where equality is allowed |
| LpLang.PureLpAllows | congress/datalog/arithmetic_solvers.py:191-213 | And the one extension of an assignment that satisfies the expression satisfies the constraints, if the bounds leave room |
| Translators.SchemaHas | congress/datasources/datasource_driver.py:571-593 | The schema has exactly the tables of the translator on top of what was there, with the columns that its rows fit |
| Translators.SchemaExists | congress/datasources/datasource_driver.py:571-593 | A well-formed tree always has a schema: no table is met twice |
| Translators.ProperRows | congress/datasources/datasource_driver.py:778-822 | Rows of the table itself after the rows below it: widths, ties to the parent, and ties below all hold |
| Translators.Finish | congress/datasources/datasource_driver.py:766-822 | Identifier, parent value or neither in front of every row of the table itself |
| Translators.PopulateList | congress/datasources/datasource_driver.py:760-822 | The rows of a list translator are proper: right width, tied to the parent, linked below |
| Translators.PopulateVdict | congress/datasources/datasource_driver.py:824-888 | The rows of a dictionary translator are proper, those below with a parent key repeating the key of their row |
| Translators.PlainFields | congress/datasources/datasource_driver.py:914-945 | The fields without a parent key come first and fill the row, one value for each of their columns, as `TranslatedRows.RecordMeans` says |
| Translators.KeyedFields | congress/datasources/datasource_driver.py:914-945 | The fields with a parent key come last; their rows start with a value of the filled row |
| Translators.FormatResultsToHdict | congress/datasources/datasource_driver.py:950-981 | The finished row has one cell for each column, and the rows below start with cells of it |
| Translators.ConvertObj | congress/datasources/datasource_driver.py:1003-1031 | Any object: an exception, nothing for a missing object, or proper rows |
| Translators.ConvertObjs | congress/datasources/datasource_driver.py:1033-1051 | The rows of the objects in order, none left out, and an exception iff one of them raises one or is null; they are proper together |
| TranslatedRows.ListShows | congress/datasources/datasource_driver.py:760-822 | A list gives the rows of its elements, in order, and then one row for each element, with the value extracted from it or the identifier of its rows; the exact condition for an exception |
| TranslatedRows.DictShows | congress/datasources/datasource_driver.py:824-888 | A dictionary gives the rows of its values, in order, and then one row for each pair, with the key and the value extracted or its identifier; the exact condition for an exception |
| TranslatedRows.RecordMeans | congress/datasources/datasource_driver.py:890-981 | A record gives one row of its own, the last: link part, then a cell for each field in order, which is the value extracted from the field of that name, or the identifier of its rows; and the rows of its fields, each as that field is converted, and no others |
| TranslatedRows.ValueCell | congress/datasources/datasource_driver.py:914-926 | In a record's own row the cell in the column of a value field is what is extracted from the field of that name |
| TranslatedRows.RecordConverts | congress/datasources/datasource_driver.py:890-981 | A record raises an exception iff a field does or the link part cannot be made |
| TranslatedRows.RecordsMean | congress/datasources/datasource_driver.py:983-1001 | A record translator converts one record, or all records of a list one after the other, and returns the last identifier |
| TranslatedRows.ParentIrrelevant | congress/datasources/datasource_driver.py:914-945 | Only what is tied by a parent key depends on the row above |
| TranslatedRows.OneRowForEach | congress/datasources/datasource_driver.py:760-1001 | Every record, every element of a list and every pair of a dictionary has exactly one row in the table of its translator |
| TranslatedRows.SchemaColumns | congress/datasources/datasource_driver.py:485-593 | The columns of each table by name: link part, then fields in order, key and value, or value |
| Translators.MakeTmpState | congress/datasources/datasource_driver.py:339-350 | One set for each dependent table, holding exactly the rows of that table |
| Translators.RowsKeepToTheSchema | congress/datasources/datasource_driver.py:339-350 | Every row is of a table listed for the root, so none is dropped, and is as wide as its schema |

## Left out

- RuleDependencies.RuleDependencyGraph.UndoChanges: where a node or arc is not held when it is to be deleted, says how the counters end but not the adjacency sets.
- Nonrecursive.NonrecursiveRuleTheory.UpdateOne: rules have one head, which is not negated; schemas of theories are not modelled.
- RuleDependencies.RuleDependencyGraph.UpdateUnlessRecursive: takes batches in which each formula deleted is held at that point; any batch is in `RuleDependencies.RuleDependencyGraph.FormulaUpdate`.
- RuleSet.RuleSet.DiscardRule: takes rules whose head is not negated, as does adding one.
- Materialized.DeltaRuleTheory.Insert: takes rules without self-joins, which the view theory removes before it queues a rule.
- Materialized.CleanRunsGiveTheModel: of a run in which a deleted tuple lingered it says nothing, though the state at its end may be right; each state on the way is decided by `Views.RunExact`.
- RuleSet.RuleSet.AddRule: this and the members that look rules up ask that all facts of a table are equally wide, as a wider literal would make the index look at a column that is not there.
- PubSub.RunSafe: has a publisher that publishes by differences and does not restart; publishing by snapshots is in `PubSub.DataService.Publish`, whose contract says that it does not refresh the last data.
- Materialized.MaterializedViewTheory.Update: takes rules without negation and builtins, and facts of tables that no rule defines at the time; deleting a rule is not modelled. Requests that would keep the queue from emptying are not taken (`Materialized.Settles`).
- Database.Database.Evaluate: enumerates stored tuples over values; the shared unifiers of the search are modelled in `TopDown` and not again for a database. Bodies of delta rules keep the order of the rule, since the sorted order does not matter to what is found.
- PubSub.Converges: leaves out resets, which `PubSub.ResetForgets` describes.
- Translators.ConvertObjs: takes the objects as the extraction function of the root translator has given them.
- Translators.ConvertObj: objects are records, dictionaries, lists and plain values; text is taken to be ASCII already, so that converting a value twice changes nothing; which exception is raised is not modelled.
- Names of theories and modals, rules with several heads, includes, cross-policy modules, column references, abduction and the saving of literals in the search.
- The order in which `list(set(results))` and other loops over sets go; hash collisions; the linked list inside `OrderedSet`.
- The cached cycles of a graph (`has_cycle` is a fresh enumeration), `roots`, `dependencies`, the union of graphs, and the counters `all_tables`.
- `always_snapshot`, receipt times, heartbeats, resubscription timers and remote calls of the pub-sub services; two messages with the same number and kind are taken from the queue in any order.
- Floating point: numbers of linear constraints are reals. Python types of constants other than strings and numbers.
- Parsing, printing, tracing, `explain`, PuLP conversion, REST, databases and cloud clients.
