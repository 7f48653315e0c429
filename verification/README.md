# tellur dataflow engine — a Dafny model

tellur evaluates dataflow graphs. A graph (`TellurNodeTree`) declares named parameters and returns. It holds internal nodes keyed by `NodeId`, and it wires each node parameter and each graph return to one of three sources: a graph parameter, a constant (`Fixed`) or another node's named output.

`planned()` turns the name-based wiring into a position-based plan. The plan's `evaluate` schedules the nodes as a small state machine: each node moves Waiting → Ready → Running → Finished, with a FIFO queue and a memory of output slots. The graph editor `TellurComposition` builds such graphs one edit at a time. After every structural edit, `clean_parameters` re-derives the wiring.

The model covers the following, one module per concept:

- **Values and types** (`Types`, `CorrespondExt`): type inference (`to_original_type`) and conformance (`is_instance_of`) over structural types. Struct conformance goes through the pairwise `correspond` helper.
- **Ordered maps** (`Order`, `SortedMap`): every `BTreeMap` is a strictly sorted association list, keyed by strings or node ids. This is why iteration order, and hence every planned index, is key order.
- **Graphs and the planner** (`Tree`, `Planner`): the graph and the closed set of node kinds (NOT, AND, nested graph). Planning resolves node ids to their rank, parameter names to their index among the graph's parameters, and output names to their index among the producer's returns. Every `unwrap`, map index and `panic!` of the planner is an error result.
- **The first-generation graph** (`LegacyTree`): it has no constants, and each return names a (node, output) pair. It is planned by embedding it into the newer graph. `Downgrade` takes the embedding back, so the embedding is one to one onto the newer graphs without constants. The plans obtained have exactly the legacy shape: no constant inputs, and every return is an output slot.
- **The scheduler** (`Plan`):
  - `Execute`/`Loop`/`StepOnce` are a functional reference for the evaluation loop, one iteration per step. Termination is by the number of unfinished nodes.
  - The method `Evaluate` is the loop as the source writes it: a state vector, a queue, the rescan loop and the store loop. It is proved to compute exactly `Execute`.
- **What a plan means** (`Denotation`): evaluate the nodes in position order, each reading the results of the nodes before it. For a plan whose nodes read only earlier positions, the scheduler computes exactly this whenever each node evaluates successfully. The queue order does not matter, and the scheduler never stalls.
- **The primitive nodes** (`Logical`): NOT and AND, with their fixed identifiers and signatures. A wrong argument count or a non-Boolean argument is an error.
- **The example graphs** (`Circuits`): OR = NOT(AND(NOT l, NOT r)) and AND = NOT(OR(NOT l, NOT r)), with the OR graph nested as a node. Both plan to the expected plans and compute OR and AND on all four input pairs. The first-generation test graphs are written as legacy graphs and embed as exactly these graphs.
- **The graph editor** (`Composition`):
  - `new`, `add_node`, `remove_node`, `add_edge`, `remove_edge` and `set_value`;
  - the `mut_parameters`/`mut_returns` replacement, `components`, `to_tree_input` and `evaluate`;
  - `clean_parameters`.
- **What editing keeps true** (`EditorInvariants`, `RemovalOrder`, `Replay`): every composition reached from `new` satisfies three facts.
  - Every wire was drawn by an edge still in the edge set.
  - Every edge leads to an existing node or to the Output component.
  - The placed components are exactly the nodes.

  `RemovalOrder` shows that `remove_node` as written, whenever it does not panic, gives the same composition as the repaired removal. So the facts hold for every edit sequence the code as written completes.
- **The editor test** (`OrComposition`): the edit sequence of `tellur_core/tests/or_composition.rs` produces exactly the OR graph, and evaluating it gives `left || right`.

Panics are modelled as `Err` values of one `Error` datatype. `TellurType::default_value` is not part of this model. It is a parameter `dflt: TellurType -> TypedValue` of every editing operation that re-derives the wiring.

The two source files of the newer engine disagree, and the model follows the planner. `tellur_core/src/tree/mod.rs:79` builds `PlannedInput::Fixed`, and `:114` passes the outputs as a list of `PlannedInput`. But `tellur_core/src/tree/plan.rs:9-14` declares only `Parameter`/`NodeOutput`, with outputs as `(usize, usize)` pairs.

The model's `PlannedInput` therefore has all three variants, and outputs are planned inputs. For readiness, a `Fixed` input is treated like a `Parameter`: always available. A graph return bound to a parameter or a constant counts as available at once. The first-generation scheduler (`core/src/tree/mod.rs:130-187`) is the same loop over plans without constants, so `Plan` covers both generations.

## Model

| member | source | states |
|---|---|---|
| Types.ToOriginalType | core/src/types/mod.rs:37-64 | the only error is the inconsistent-array error; an inferred type has the value's constructor; every primitive infers determinately; the empty array infers to None |
| Types.RestAgree | core/src/types/mod.rs:44-54 | the elements from a position on agree exactly when each of them infers, without error, to the candidate |
| Types.FieldTypes | core/src/types/mod.rs:56-62 | a determinate result pairs every field name, in order, with that field's inferred type; all fields determinate implies a determinate result |
| Types.ArrayInference | core/src/types/mod.rs:44-55 | a non-empty array infers without error iff every element infers to the same result as the first; that result, if determinate, becomes the element type |
| Types.StructInference | core/src/types/mod.rs:56-62 | a struct whose fields are all determinate infers to the struct of the field types, same names, same order |
| Types.StructIndeterminate | core/src/types/mod.rs:56-62 | the first indeterminate field makes the whole struct indeterminate, whatever the later fields hold |
| Types.ShapeMismatchRejects | core/src/types/mod.rs:66-83 | a value never conforms to a type of another constructor |
| Types.IsInstanceOf | core/src/types/mod.rs:66-83 | a value conforms only to a type of its own constructor; a primitive value conforms exactly to the type of its constructor; the empty array conforms exactly to the array types |
| Types.ArrayConformance | core/src/types/mod.rs:73-75 | the empty array conforms to every array type; an array conforms iff each element conforms |
| Types.StructConformsIffCorrespond | core/src/types/mod.rs:76-80 | struct conformance is exactly `correspond` of the sorted fields with the per-field name-and-type check |
| Types.InferenceSound | core/src/types/mod.rs:37-83 | a value conforms to the type inferred for it |
| Types.InferenceExact | core/src/types/mod.rs:37-83 | when inference is determinate, the inferred type is the only type the value conforms to |
| CorrespondExt.Correspond | core/src/util/correspond.rs:2-19 | true iff both sequences have the same length and the predicate holds at every position |
| SortedMap.IndexIsRank | tellur_core/src/tree/mod.rs:46-51 | in a sorted map the position of an entry is the number of keys below its key |
| SortedMap.IndexOfAt | tellur_core/src/tree/mod.rs:64-66 | the first position of a key among the keys of a sorted map is its index |
| SortedMap.SortedExtensional | core/src/types/mod.rs:204-218 | two sorted maps with the same lookups are the same list, so a map does not depend on insertion history |
| SortedMap.InsertCommutes | core/src/types/mod.rs:204-218 | inserting two distinct keys in either order gives the same map |
| SortedMap.InsertSorted | tellur_core/src/composition/mod.rs:281 | inserting into a sorted map keeps it sorted |
| SortedMap.RemoveSorted | tellur_core/src/composition/mod.rs:295 | removing from a sorted map keeps it sorted |
| Order.StrLessIsStrictTotal | tellur_core/src/tree/mod.rs:21-24 | the string key order is a strict total order |
| Tree.IdLessIsStrictTotal | tellur_core/src/tree/mod.rs:10-11 | the derived order on node ids is a strict total order |
| Logical.NotEvaluate | tellur_core/src/tellur_std_node/logical/not.rs:44-56 | succeeds iff given one Boolean; then exactly one Boolean result, the negation; wrong count and non-Boolean are distinct errors |
| Logical.AndEvaluate | core/src/tellur_std_node/logical/and.rs:49-66 | succeeds iff given two Booleans; then exactly one Boolean result, their conjunction; wrong count and non-Boolean are distinct errors |
| Logical.AndCommutes | core/src/tellur_std_node/logical/and.rs:49-66 | swapping the two arguments gives the same result, and the same error when they do not conform |
| Planner.ResolveInput | tellur_core/src/tree/mod.rs:62-82 | a resolved input names an existing position; a constant resolves to the same constant |
| Planner.Position | tellur_core/src/tree/mod.rs:46-51 | a node id has a position iff the graph holds it; the entry there has that id, and in id order the position is the number of smaller ids |
| Planner.ResolveBindings | tellur_core/src/tree/mod.rs:56-85 | succeeds iff every name is bound and resolves; one planned input per name, in the names' order; the first unbound name is the error |
| Planner.PlanNode | tellur_core/src/tree/mod.rs:86 | a planned node strategy refers only to existing positions, at every nesting depth |
| Planner.PlanEntry | tellur_core/src/tree/mod.rs:56-87 | a planned entry's inputs name existing positions and its strategy is well formed |
| Planner.PlanNodes | tellur_core/src/tree/mod.rs:53-88 | one planned entry per node, in ascending id order, each the entry's own plan |
| Planner.PlanTree | tellur_core/src/tree/mod.rs:41-115 | a plan is well formed, has one node per graph node in id order, and its outputs are the returns' bindings resolved in return-name order |
| Planner.PlanEntryMeaning | tellur_core/src/tree/mod.rs:56-85 | a node can be planned iff all its declared parameters are bound and resolve and its kind plans; the plan lists them in parameter order |
| Planner.PlanNodesOkIff | tellur_core/src/tree/mod.rs:53-88 | the first n nodes plan iff each of them does |
| Planner.PlanTreeOkIff | tellur_core/src/tree/mod.rs:41-115 | planning succeeds iff every node can be planned and every declared return is bound and resolves |
| Planner.ParameterResolution | tellur_core/src/tree/mod.rs:64-66 | a parameter name resolves to index i iff i is where it is declared, which is its rank; an undeclared name fails |
| Planner.NodeOutputResolution | tellur_core/src/tree/mod.rs:68-78 | a node output resolves to (pos, k) iff the node is at position pos (its rank among ids) and the output is its k-th return; an unknown id fails |
| Planner.UnboundFails | tellur_core/src/tree/mod.rs:80-81 | a node parameter without a binding makes planning fail |
| Planner.UnboundReturnFails | tellur_core/src/tree/mod.rs:109 | a declared return without a binding makes planning fail |
| LegacyTree.UpgradeInput | core/src/tree/mod.rs:7-10 | a legacy wire becomes a wire that is never a constant, and taking it back gives the legacy wire again |
| LegacyTree.UpgradeInputs | core/src/tree/mod.rs:24 | the bindings keep their names in order; none is a constant, and taking them back gives the legacy bindings again |
| LegacyTree.UpgradeOutputs | core/src/tree/mod.rs:25 | the returns keep their names in order; each is a node-output wire, and taking them back gives the (node, output) pairs again |
| LegacyTree.UpgradeNode | core/src/tree/mod.rs:33-36 | a node keeps its identifier; the result can be expressed in the legacy graph and taking it back gives the legacy node again |
| LegacyTree.Upgrade | core/src/tree/mod.rs:20-26 | node ids are kept in order; the result holds no constant, every return is a node output, and taking it back gives the legacy graph again |
| LegacyTree.UpgradeDowngrade | core/src/tree/mod.rs:20-26 | every newer graph with no constant and only node-output returns, at every nesting depth, is the embedding of a legacy graph; with `Upgrade` the embedding is one to one onto these graphs |
| LegacyTree.ResolveKeepsShape | core/src/tree/mod.rs:67-87 | resolving wires that hold no constant yields no constant input |
| LegacyTree.ResolveOutputsShape | core/src/tree/mod.rs:95-111 | resolving wires that are all node outputs yields output slots only |
| LegacyTree.LegacyEntryShape | core/src/tree/mod.rs:59-93 | a planned legacy node reads no constant, and its strategy has the legacy shape |
| LegacyTree.LegacyNodeShape | core/src/tree/mod.rs:91 | a planned legacy node kind has the legacy shape at every nesting depth |
| LegacyTree.LegacyOutputsShape | core/src/tree/mod.rs:95-111 | every planned return of a legacy graph is an output slot |
| LegacyTree.LegacyPlanShape | core/src/tree/mod.rs:47-117 | every plan of a legacy graph has the legacy shape |
| LegacyTree.LegacyUnboundReturn | core/src/tree/mod.rs:100 | a declared return with no output binding makes planning fail |
| Plan.Fetch | tellur_core/src/tree/plan.rs:74-80 | arguments are fetched in planned-input order (parameter i gives args[i], slot (n, o) gives memory[(n, o)]); succeeds iff every input is available; otherwise the error of a missing one |
| Plan.Store | tellur_core/src/tree/plan.rs:83-85 | result i of the node at position p is at slot (p, i); every other slot is unchanged; no other slot appears |
| Plan.EvalStrategy | tellur_core/src/tree/plan.rs:74-81 | a NOT or AND node succeeds iff its arguments conform to its signature and then gives one Boolean; a nested plan gives one value per output of that plan |
| Plan.Execute | tellur_core/src/tree/plan.rs:34-89 | a successful run returns one value per planned output; a constant output gives that constant and a parameter output the argument at its index |
| Plan.EnabledBelow | tellur_core/src/tree/plan.rs:43-54 | the queued positions are exactly the enabled ones, in ascending order |
| Plan.RescanValid | tellur_core/src/tree/plan.rs:42-55 | the rescan keeps the loop invariant, finishes nothing and moves no state backwards |
| Plan.Refill | tellur_core/src/tree/plan.rs:42-55 | the queue at the top of an iteration keeps the invariant, the finished set and the memory; a non-empty queue is left alone |
| Plan.FinishValid | tellur_core/src/tree/plan.rs:70-87 | running the head of the queue keeps the invariant and finishes exactly that node, which was ready with its producers finished |
| Plan.RefillFinish | tellur_core/src/tree/plan.rs:41-87 | one iteration finishes exactly one unfinished node whose producers had finished, and moves no state backwards |
| Plan.StepOnce | tellur_core/src/tree/plan.rs:41-88 | an iteration either returns the outputs (once all are available) or finishes one node whose producers had finished, keeping the invariant |
| Plan.Loop | tellur_core/src/tree/plan.rs:41-88 | a successful run returns one value per output; a constant output is that constant and a parameter output is that argument |
| Plan.InitialValid | tellur_core/src/tree/plan.rs:38-40 | the initial state (all waiting, empty queue and memory) satisfies the loop invariant with every node unfinished |
| Plan.StalledIff | tellur_core/src/tree/plan.rs:66-68 | nothing is runnable iff the queue is empty and no waiting node is enabled; then, with outputs unavailable, the run stalls |
| Plan.NoOutputsReturnEmpty | tellur_core/src/tree/plan.rs:56-65 | a plan with no outputs returns the empty list at once |
| Plan.AllFinishedReturns | tellur_core/src/tree/plan.rs:56-65 | once every node has finished, the run returns the outputs read from memory |
| Plan.RanAtMostOnce | tellur_core/src/tree/plan.rs:44-53 | every node run was unfinished before, and no node runs twice in one evaluation |
| Plan.RanFirst | tellur_core/src/tree/plan.rs:73-87 | a node finished by a step was unfinished before it and is not run again after it |
| Plan.StepReturns | tellur_core/src/tree/plan.rs:56-68 | with outputs available the run returns them; with nothing runnable it stalls; otherwise it continues from the refilled queue |
| Plan.RunFetchFails | tellur_core/src/tree/plan.rs:74-80 | a missing argument of the head node aborts the run with that error |
| Plan.RunEvalFails | tellur_core/src/tree/plan.rs:74-81 | the head node's evaluation error aborts the run and is returned unchanged |
| Plan.RunContinues | tellur_core/src/tree/plan.rs:70-87 | otherwise the run continues from the configuration where the head has finished with its results stored |
| Plan.RunStrategy | tellur_core/src/tree/plan.rs:74-81 | evaluating a node kind (NOT, AND, nested plan) by method computes the reference evaluation |
| Plan.RescanLoop | tellur_core/src/tree/plan.rs:43-54 | the rescan loop promotes exactly the enabled nodes and queues them in position order |
| Plan.StoreResults | tellur_core/src/tree/plan.rs:83-85 | the store loop writes exactly the slots of `Store` |
| Plan.RunNext | tellur_core/src/tree/plan.rs:70-87 | running the head either decides the run's result or leaves a valid state with fewer unfinished nodes and the same outcome |
| Plan.Iterate | tellur_core/src/tree/plan.rs:41-88 | one loop pass either decides the result or strictly decreases the unfinished nodes with the same outcome |
| Plan.Evaluate | tellur_core/src/tree/plan.rs:34-89 | the scheduler loop as written computes exactly the reference `Execute` |
| Denotation.FetchOneAgrees | tellur_core/src/tree/plan.rs:74-80 | an available input reads the same from the scheduler's memory as from the position-order results |
| Denotation.FinishAgrees | tellur_core/src/tree/plan.rs:83-87 | storing a finished node's results keeps memory and position-order results in agreement |
| Denotation.HeadFetchAgrees | tellur_core/src/tree/plan.rs:74-80 | the head of the queue reads the same arguments as position-order evaluation gives it |
| Denotation.NeverStalls | tellur_core/src/tree/plan.rs:66-68 | in a plan whose nodes read only earlier positions, the run never stalls |
| Denotation.ReadyDenotes | tellur_core/src/tree/plan.rs:56-65 | once the outputs are available, the returned outputs are the position-order ones |
| Denotation.RunDenotes | tellur_core/src/tree/plan.rs:70-87 | an iteration runs a node that produces its position-order results, keeps agreement and decreases the unfinished nodes |
| Denotation.LoopDenotes | tellur_core/src/tree/plan.rs:41-88 | from every reachable configuration the run ends with the position-order outputs |
| Denotation.ExecuteDenotes | tellur_core/src/tree/plan.rs:34-89 | the scheduler computes the position-order meaning whenever every node evaluates successfully, whatever the queue order |
| Circuits.OrTreePlans | tellur_core/tests/or_and_function_tree.rs:9-113 | the OR graph plans to NOT/NOT/AND/NOT with the expected positions and slots |
| Circuits.AndTreePlans | tellur_core/tests/or_and_function_tree.rs:115-219 | the AND graph, nesting the OR graph, plans to the expected nested plan |
| Circuits.DeMorganPlans | tellur_core/src/tree/mod.rs:41-115 | any graph of the De Morgan shape plans to the expected plan around its middle node |
| Circuits.DeMorganEvaluates | tellur_core/src/tree/plan.rs:34-89 | such a plan whose middle node maps the negated inputs to m evaluates to NOT m |
| Circuits.OrTreeComputesOr | tellur_core/tests/or_and_function_tree.rs:232-239 | planning and evaluating the OR graph gives a OR b on all four pairs |
| Circuits.AndTreeComputesAnd | tellur_core/tests/or_and_function_tree.rs:241-248 | planning and evaluating the AND graph gives a AND b on all four pairs |
| Circuits.LegacyDeMorganUpgrades | core/src/tree/mod.rs:198-302 | a first-generation graph of the De Morgan shape embeds as the newer graph of that shape around the embedded middle node |
| Circuits.LegacyOrTreeUpgrades | core/src/tree/mod.rs:198-302 | the first-generation OR graph embeds as exactly the OR graph |
| Circuits.LegacyAndTreeUpgrades | core/src/tree/mod.rs:304-408 | the first-generation AND graph, nesting the OR graph, embeds as exactly the AND graph |
| Circuits.LegacyOrTreeComputesOr | core/src/tree/mod.rs:421-428 | the first-generation OR graph plans to the OR plan, which computes a OR b on all four pairs |
| Circuits.LegacyAndTreeComputesAnd | core/src/tree/mod.rs:430-437 | the first-generation AND graph plans to the AND plan, which computes a AND b on all four pairs |
| Composition.ToTreeInput | tellur_core/src/composition/mod.rs:259-268 | fails iff the source is the Output component; otherwise the wire is the one whose edge is drawn from that port |
| Composition.New | tellur_core/src/composition/mod.rs:48-60 | a fresh composition has the name, no parameters, returns, nodes, bindings, edges or placements |
| Composition.FillDefaults | tellur_core/src/composition/mod.rs:70-80 | exactly the unbound declared immutable parameters get their type's default; nothing else changes |
| Composition.CleanParameters | tellur_core/src/composition/mod.rs:62-123 | re-deriving changes only node bindings and edges; it keeps the nodes, placements and signature and adds no edge |
| Composition.CleanEntryAt | tellur_core/src/composition/mod.rs:65-121 | one port of a node is re-derived: declared ports keep their binding or get their default, undeclared ports keep only an undrawn wire |
| Composition.CleanBinding | tellur_core/src/composition/mod.rs:62-123 | node ports are re-derived and graph returns keep their bindings |
| Composition.CleanEdges | tellur_core/src/composition/mod.rs:82-122 | the edges kept are exactly those that drew no binding for an undeclared name |
| Composition.Bind | tellur_core/src/composition/mod.rs:274-287 | binding a node port or graph return sets that binding alone; the Input component and an unknown node are refused |
| Composition.Unbind | tellur_core/src/composition/mod.rs:293-301 | unbinding clears that binding alone; the Input component and an unknown node are refused |
| Composition.AddEdge | tellur_core/src/composition/mod.rs:270-290 | refuses Output as source, Input as destination and an unknown node, in that order; succeeds otherwise, keeping nodes and placements |
| Composition.AddEdgeEffect | tellur_core/src/composition/mod.rs:270-290 | an edge to a declared port or a return binds it and is kept; one to an undeclared port is taken away again with its binding |
| Composition.RemoveEdge | tellur_core/src/composition/mod.rs:292-304 | refuses Input as destination and an unknown node; otherwise the edge is gone, no edge is added, nodes and placements are kept |
| Composition.RemoveEdgeEffect | tellur_core/src/composition/mod.rs:292-304 | afterwards a node port holds its default if a declared immutable parameter and nothing otherwise; a return is unbound |
| Composition.Touching | tellur_core/src/composition/mod.rs:169-175 | the collected edges are exactly those with the node at either end |
| Composition.RemoveEdges | tellur_core/src/composition/mod.rs:176-177 | removing a list of edges succeeds iff each is removable; then none of them remains |
| Composition.TouchingEdges | tellur_core/src/composition/mod.rs:169-175 | the edges of the set that touch the node |
| Composition.Detach | tellur_core/src/composition/mod.rs:167-168 | the node and its placement are gone, everything else kept |
| Composition.RemoveNode | tellur_core/src/composition/mod.rs:166-179 | as written: succeeds iff every touching edge leads to Output or another existing node; then the node and its placement are gone |
| Composition.RemoveNodeIncomingFails | tellur_core/src/composition/mod.rs:166-179 | an edge into the node makes the removal as written fail |
| Composition.RemoveNodeFixed | tellur_core/src/composition/mod.rs:166-179 | repaired removal: succeeds iff every touching edge is removable; then the node and its placement are gone |
| Composition.RemoveNodeFixedSucceeds | tellur_core/src/composition/mod.rs:166-179 | on a composition whose edges all lead somewhere the repaired removal always succeeds |
| Composition.FirstFree | tellur_core/src/composition/mod.rs:153-157 | the smallest unused id below `u32::MAX`, or none when all are used |
| Composition.AddNode | tellur_core/src/composition/mod.rs:152-164 | fails iff every id below `u32::MAX` is used; otherwise the smallest free id holds the node, other nodes are kept and the node is placed |
| Composition.Added | tellur_core/src/composition/mod.rs:158-161 | the node is registered with no bindings and placed, all else kept |
| Composition.AddNodeDefaults | tellur_core/src/composition/mod.rs:152-164 | a new node's ports hold exactly the defaults of its immutable parameters |
| Composition.SetValue | tellur_core/src/composition/mod.rs:125-150 | refuses Input, an unknown node, an unbound port and a wired port; otherwise replaces that constant alone |
| Composition.SetParameters | tellur_core/src/composition/mod.rs:310-312 | the parameters become the given map; returns, bindings, edges, placements and nodes are unchanged |
| Composition.SetReturns | tellur_core/src/composition/mod.rs:318-320 | the returns become the given map; parameters, bindings, edges, placements and nodes are unchanged |
| Composition.Named | tellur_core/src/composition/mod.rs:247-251 | results are paired with return names position by position, as far as both go |
| Composition.Evaluate | tellur_core/src/composition/mod.rs:235-253 | a planning error is returned; success iff planning and the run succeed; the results are named after the returns, in order |
| EditorInvariants.CleanWireWasThere | tellur_core/src/composition/mod.rs:62-123 | a wire left after re-deriving was there before |
| EditorInvariants.CleanKeepsWired | tellur_core/src/composition/mod.rs:82-122 | re-deriving keeps every wire's edge |
| EditorInvariants.CleanFillsDefaults | tellur_core/src/composition/mod.rs:70-80 | after re-deriving, every declared immutable parameter is bound, to what it had or to its default |
| EditorInvariants.CleanDropsUndeclared | tellur_core/src/composition/mod.rs:82-122 | on a wired composition no binding remains for an undeclared name |
| EditorInvariants.RederivedUndeclared | tellur_core/src/composition/mod.rs:82-120 | a binding kept at an undeclared name is a wire that no edge of the set draws |
| EditorInvariants.CleanLeavesNoStaleEdge | tellur_core/src/composition/mod.rs:82-122 | no edge left after re-deriving is one it would remove |
| EditorInvariants.CleanEntryTwice | tellur_core/src/composition/mod.rs:65-121 | re-deriving a node entry again, against fewer edges, changes nothing |
| EditorInvariants.CleanIdempotent | tellur_core/src/composition/mod.rs:62-123 | `clean_parameters` is idempotent |
| EditorInvariants.AddEdgeKeepsWired | tellur_core/src/composition/mod.rs:270-290 | `add_edge` keeps every wire drawn by an edge of the set |
| EditorInvariants.AddEdgeKeepsTargets | tellur_core/src/composition/mod.rs:270-290 | `add_edge` keeps every edge leading somewhere |
| EditorInvariants.AddEdgeKeepsPlaced | tellur_core/src/composition/mod.rs:270-290 | `add_edge` keeps placements and nodes in step |
| EditorInvariants.RemoveEdgeKeepsWired | tellur_core/src/composition/mod.rs:292-304 | `remove_edge` keeps every wire drawn by an edge of the set |
| EditorInvariants.RemoveEdgeKeepsTargets | tellur_core/src/composition/mod.rs:292-304 | `remove_edge` keeps every edge leading somewhere |
| EditorInvariants.RemoveEdgeKeepsPlaced | tellur_core/src/composition/mod.rs:292-304 | `remove_edge` keeps placements and nodes in step |
| EditorInvariants.RemoveEdgesKeepsWired | tellur_core/src/composition/mod.rs:176-177 | removing edges one after another keeps every wire drawn |
| EditorInvariants.AddNodeKeepsWired | tellur_core/src/composition/mod.rs:152-164 | `add_node` keeps every wire drawn by an edge of the set |
| EditorInvariants.AddNodeKeepsTargets | tellur_core/src/composition/mod.rs:152-164 | `add_node` keeps every edge leading somewhere |
| EditorInvariants.AddNodeKeepsPlaced | tellur_core/src/composition/mod.rs:152-164 | `add_node` keeps placements and nodes in step |
| EditorInvariants.RemoveNodeFixedKeepsWired | tellur_core/src/composition/mod.rs:166-179 | the repaired `remove_node` keeps every wire drawn by an edge of the set |
| EditorInvariants.RemoveNodeFixedKeepsTargets | tellur_core/src/composition/mod.rs:166-179 | the repaired `remove_node` keeps every edge leading somewhere |
| EditorInvariants.RemoveNodeFixedKeepsPlaced | tellur_core/src/composition/mod.rs:166-179 | the repaired `remove_node` keeps placements and nodes in step |
| EditorInvariants.SetValueKeeps | tellur_core/src/composition/mod.rs:125-150 | `set_value` keeps all three editor invariants |
| EditorInvariants.SetSignatureKeeps | tellur_core/src/composition/mod.rs:310-320 | replacing the graph's parameters or returns keeps all three editor invariants |
| Replay.NewInvariant | tellur_core/src/composition/mod.rs:48-60 | a fresh composition satisfies the editor invariants |
| Replay.ApplyKeeps | tellur_core/src/composition/mod.rs:125-320 | every successful edit keeps the editor invariants |
| Replay.ReplayKeeps | tellur_core/src/composition/mod.rs:125-320 | every successful edit sequence keeps the editor invariants |
| Replay.Reachable | tellur_core/src/composition/mod.rs:166-179 | every composition reached from `new` satisfies the invariants, and the repaired removal succeeds on it for any id |
| Replay.ReachableComponents | tellur_core/src/composition/mod.rs:231-233 | on every composition reached from `new`, `components()` lists exactly the existing nodes |
| Replay.ApplySorted | tellur_core/src/composition/mod.rs:125-320 | every successful edit keeps the nodes in id order |
| Replay.ReplayAsWrittenAgrees | tellur_core/src/composition/mod.rs:166-179 | on nodes in id order, an edit sequence that succeeds with the removal as written gives the same composition as with the repaired removal |
| Replay.ReachableAsWritten | tellur_core/src/composition/mod.rs:166-179 | every composition the code as written reaches from `new` without a panic is the one the model reaches, so it satisfies the editor invariants |
| RemovalOrder.CleanSorted | tellur_core/src/composition/mod.rs:62-123 | re-deriving the wiring keeps the nodes in id order |
| RemovalOrder.AddNodeSorted | tellur_core/src/composition/mod.rs:152-164 | `add_node` keeps the nodes in id order |
| RemovalOrder.AddEdgeSorted | tellur_core/src/composition/mod.rs:270-290 | `add_edge` keeps the nodes in id order |
| RemovalOrder.RemoveEdgeSorted | tellur_core/src/composition/mod.rs:292-304 | `remove_edge` keeps the nodes in id order |
| RemovalOrder.RemoveNodeFixedSorted | tellur_core/src/composition/mod.rs:166-179 | the repaired `remove_node` keeps the nodes in id order |
| RemovalOrder.SetValueSorted | tellur_core/src/composition/mod.rs:125-150 | `set_value` keeps the nodes in id order |
| RemovalOrder.UnbindDetach | tellur_core/src/composition/mod.rs:293-301 | unbinding a port of another component succeeds before dropping a node iff after, with the same result |
| RemovalOrder.CleanDetach | tellur_core/src/composition/mod.rs:62-123 | when no edge leads into a node, re-deriving the wiring and dropping the node commute |
| RemovalOrder.RemoveEdgeDetach | tellur_core/src/composition/mod.rs:292-304 | removing an edge that does not lead into a node succeeds before dropping the node iff after, with the same result, and still no edge leads into it |
| RemovalOrder.RemoveEdgesDetach | tellur_core/src/composition/mod.rs:176-177 | the same for removing a list of such edges one after another |
| RemovalOrder.RemoveNodeAgrees | tellur_core/src/composition/mod.rs:166-179 | whenever the removal as written succeeds it gives exactly the composition of the repaired removal |
| Replay.FirstNodeIsZero | tellur_core/src/composition/mod.rs:152-164 | the first node added to a fresh composition takes id 0 |
| Replay.ReplayAddThenDraw | tellur_core/src/composition/mod.rs:152-164 | adding a node and drawing an edge is the edge drawn on the grown composition |
| Replay.WiredNotHasEdge | tellur_core/src/composition/mod.rs:270-290 | after adding a NOT and wiring a parameter into it, the edge is in the set |
| Replay.WiredNotRemoval | tellur_core/src/composition/mod.rs:295 | on that composition the removal as written fails and the repaired one succeeds |
| OrComposition.CleanTreeSettled | tellur_core/src/composition/mod.rs:62-123 | re-deriving leaves a graph whose entries bind exactly their declared parameters unchanged |
| OrComposition.AddNodeNextId | tellur_core/src/composition/mod.rs:153-157 | on nodes holding ids 0, 1, ... `add_node` takes the next id |
| OrComposition.AddNodeNext | tellur_core/src/composition/mod.rs:152-164 | on such settled nodes `add_node` appends the re-derived new entry |
| OrComposition.FreshNot | tellur_core/src/composition/mod.rs:70-80 | a new NOT node gets the default Boolean at `value` |
| OrComposition.FreshAnd | tellur_core/src/composition/mod.rs:70-80 | a new AND node gets the default Boolean at `left` and `right` |
| OrComposition.DrawNodeEdge | tellur_core/src/composition/mod.rs:270-290 | drawing an edge into a node port of settled nodes rewires that port alone |
| OrComposition.DrawOutputEdge | tellur_core/src/composition/mod.rs:283-285 | drawing an edge into a graph return binds that return alone |
| OrComposition.DeclaredShape | tellur_core/tests/or_composition.rs:12-25 | the declared graph is named "or" with parameters left and right and return result |
| OrComposition.AddsOrNodes | tellur_core/tests/or_composition.rs:27-30 | the four `add_node`s add NOT, NOT, AND, NOT at ids 0 to 3 |
| OrComposition.DrawsOrEdgesFrom | tellur_core/tests/or_composition.rs:32-60 | the remaining `add_edge`s complete the OR graph |
| OrComposition.BuildsOrTree | tellur_core/tests/or_composition.rs:12-60 | the test's edits succeed and produce exactly the OR graph |
| OrComposition.OrTreeEvaluates | tellur_core/src/composition/mod.rs:235-253 | evaluating any composition whose graph is the OR graph gives `result = left OR right` |
| OrComposition.OrCompositionComputesOr | tellur_core/tests/or_composition.rs:62-85 | the built composition evaluates to `result = left OR right` on all four pairs |

## Left out

- The `Arc<RwLock<_>>` value container and `try_read` are left out: they are locking, and values are plain immutable data here.
- `F64` values carry an opaque bit pattern. The engine never computes with them, so no floating point is modelled.
- Placement coordinates are left out because they are layout data. Only the set of placed components is kept, and the `nodes()` view that only presents them is not modelled.
- The node traits (`core/src/node/mod.rs`, `tellur_core/src/node/mod.rs`) become the closed node datatype NOT | AND | nested graph. Dynamic dispatch to other node kinds is not modellable.
- `TellurType::default_value` and `TellurException` are not part of this model. Defaults are a function parameter, and every panic or exception is one `Error` value.
- Cycle detection, type checking and pruning at planning time exist only as TODO comments in the source, so they are not modelled. The planner accepts cyclic graphs, whose runs stall.
- The criterion benchmarks (`tellur_core/benches/`) are left out. Their graphs are the OR and AND graphs of `Circuits`.
- `tellur_core/tests/or_and_function_tree.rs` writes each graph return as a (node, output) pair, while `TellurNodeTree.outputs` (`tellur_core/src/tree/mod.rs:24`) holds a `TreeInput`. `Circuits` takes the pair as the `NodeOutput` wire it stands for.
- Panics become `Err` results. The state a panicking mutation leaves half-changed is not modelled: an edit that fails leaves no composition.
- The transient `Running` state is not modelled. A node is evaluated within one iteration, so it never outlives a step, and the loop invariant says no node is left running.
- Composition.CleanParameters: the source removes each stale edge through `remove_edge`, which re-enters `clean_parameters`. The model is the net effect, one pass; the nested passes find only the remaining stale edges of the same list.
- Composition.SetParameters, Composition.SetReturns: `mut_parameters`/`mut_returns` hand out a mutable map. They are modelled as replacing the whole map, with no wiring re-derived, as the source does not re-derive it either.
- EditorInvariants: the converse of "every wire has an edge" is not an invariant. `add_edge` into a port that is already wired replaces the binding and leaves the old edge in the set (`tellur_core/src/composition/mod.rs:281`, `:288`).
- Replay.Apply uses the repaired node removal, because the removal as written panics on reachable compositions (see Findings). `Replay.ReachableAsWritten` ties the removal as written back in: a sequence it completes reaches the same composition. Node maps are kept in id order, as a `BTreeMap` always is, which `RemovalOrder.RemoveNodeAgrees` needs.
- Planner.PlanTree: planning the same graph twice gives equal plans because the planner is a function of the graph. There is no separate lemma for it.
- Denotation.ExecuteDenotes covers only plans whose nodes read earlier positions, which is every plan of a graph whose ids follow the data flow. Other acyclic graphs are not related to the position-order meaning.
- The node identifiers "not" and "and" and the two signatures are constants of `Logical`. No lemma restates them.
- Composition.Components: `components()` only collects the placement keys, so the function carries no contract of its own. `Replay.ReachableComponents` states what the set holds.

## Findings

| source | as written | input that shows it | evidently intended | confidence | as-written member | corrected member |
|---|---|---|---|---|---|---|
| tellur_core/src/composition/mod.rs:166-179 | `remove_node` removes the node first, then calls `remove_edge` on every touching edge; for an edge into the node, `remove_edge` unwraps the node lookup at line 295 and panics | `new("g")`, `add_node(NotNode)` (id 0), `add_edge(Input."x" → Node(0)."value")`, then `remove_node(0)` | removing a node removes it together with all its edges | not executed; high | Composition.RemoveNode, Composition.RemoveNodeIncomingFails, Replay.WiredNotRemoval | Composition.RemoveNodeFixed, Composition.RemoveNodeFixedSucceeds, Replay.Reachable, RemovalOrder.RemoveNodeAgrees, Replay.ReachableAsWritten |
