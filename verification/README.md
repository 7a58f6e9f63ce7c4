# ICoPa: verified models

ICoPa turns an experiment and a scenario into a plan of concrete runs, executes those runs over SSH, and keeps two
asynchronous lifecycles beside it: online latency probes and cloud VMs. This project models that logic in Dafny and
proves what the parts promise each other.

- **Plan compiler** (`Templates`, `Targeting`, `ActionCenter`, `Variants`, `RunIds`, `PhaseSpecs`, `PlanCompiler`,
  with the theorems in `PlanTheorems`, `PlanGrid`, `PhaseMeaning` and `PlanMeaning` and a plan that compiles in
  `SmallestPlan`). Phases and named edges are extracted and checked, the
  parameter grid of every selected edge is expanded and filtered, action templates are rendered, normalised against
  the action catalog and aimed at VM nodes. The theorems: the early checks leave no late error reachable; the plan is
  exactly the filtered grid of the axes the experiment writes, in order, under distinct identifiers, and every action
  of a run is made from an action document with the run's values in it; a second resolution of targets changes nothing.
- **Inventory and executor** (`Inventory`, `GeneratedPlans`, `RuntimeCache`, `RunTracker`, `RunExecutor`,
  `PlanExecution`, `ExecutionTheorems`). The nested loop over runs, phases and actions with its status tracker,
  counters, results and the set of nodes whose container runtime was already verified, proved against an explicit
  final state and against the complete history of connectivity checks.
- **Records and dispatch** (`RunRecords`, `RunDispatch`). A plan split into single-run records; each finished task
  claims the next one and enqueues it, or executes it by mutual recursion when the broker refuses. The outcome is the
  same whichever enqueues fail, and the same as the one task over the whole plan.
- **RRT configuration** (`RrtMerge`, `RrtPaths`, `RrtCheck`, `RrtOverrides`, `RrtAxes`). The recursive dictionary merge and
  what it holds at every path, the renderers built on it, the overrides derived from a variant, and the dotted-path
  check of those overrides.
- **Probe sessions** (`ProbeSessions`, `ProbeWorker`, `ProbeLookup`). The session protocol as a state machine with
  duplicate deliveries, crashes and user stops at any point; the worker's loop refining it; the newest-per-pair lookup.
- **Cloud VMs** (`CloudVm`, `CloudService`). API calls with status guards interleaved with task begin and end steps.
- **Command presets** (`RuntimePresets`). The loader's preset and group index.

`Values`, `Ordering` and `Sequences` hold what the others share. Code that loops over local variables or updates
objects is a method or a class with a specification function; the theorems are about those functions and about the
invariants the classes keep. YAML and JSON documents are trees, and dumping and loading are the identity on them. How
actions, checks, measurements, the cloud and the broker turn out are parameters. Texts that the source passes through
`str(… or "").strip()` are taken as already stripped, except where stripping is what the property is about.

## What does not hold as one might expect

- A key containing a dot, an empty key or an empty object makes the override check answer wrongly for some base
  configuration, and nothing else does (`RrtCheck.CheckIsRightExactly`). For the overrides derived from a variant this
  happens exactly when a long axis name leaves a dot in its parameter or a value that stays is no proper document
  (`RrtOverrides.DerivedCheckIsRightExactly`); the axis `icopa_sender:qos.depth` is an example
  (`RrtOverrides.DottedAxisFoolsTheCheck`).
- A stored RRT document that is falsy but neither null nor an object is refused by the executor's renderers and read
  as empty by the snapshot renderer (`RrtMerge.RenderersAgreeExactly`); the overrides an action carries itself are lost
  once a snapshot exists, unless the automatic overrides win everywhere anyway (`RrtMerge.OwnOverridesSurviveExactly`).
- A VM whose name contains a delimiter can be replaced by another VM in the second target pass
  (`Targeting.SplitNameIsRedirected`). For given nodes the pass leaves every target list as it is exactly when each VM
  name is free of delimiters or spells a site whose only VM it is (`Targeting.ListsAreFixedExactly`).
- The mode a phase template declares changes no plan: the phase's own mode is never blank when the fallback to the
  template's mode is read (`PlanTheorems.CompilationIgnoresTemplateModes`).
- Targeting strips node names and kinds, the executor's inventory does not; a VM may therefore be a valid target and have
  no inventory entry (`Inventory.CoverageExactly`, `Inventory.BlankInNameIsNotCovered`).
- Without an inventory the failure counters of the split plan and of the whole plan differ when stopOnFailure is on
  (`ExecutionTheorems.SplittingWithoutInventory`).
- A PENDING or DELETING cloud record can reach another status exactly when its task is in flight
  (`CloudVm.LeavesWaitingExactly`), and one refused enqueue leaves it without one (`CloudVm.LostTasksAreReachable`).
- Two records with one inventory name can take the archive mark off a deleted one's VM
  (`CloudVm.DeletedMeansArchivedExactly`).
- The VM of a deleted record with an inventory name of its own can be marked active again exactly when a start task of
  that record is in flight (`CloudVm.ComesUpAgainExactly`), which does happen (`CloudVm.LateStartIsReachable`).

## Model

| member | source | states |
|---|---|---|
| RrtMerge.DeepMergeDict | icopa_core/task_executor/vm_exec.py:26-33 | the copy-and-assign loop computes the key-by-key merge, whatever order the keys come in; the same code serves the executor and the API |
| RrtPaths.MergedAtExactly | icopa_core/task_executor/vm_exec.py:26-33 | every value of a merge that is no object is one of the overrides, which always win, or one of the base on a path that the overrides leave alone, and nothing is lost; empty objects are accounted for |
| RrtPaths.RenderedExactly | icopa_core/task_executor/vm_exec.py:36-57 | a stored document that is neither null nor an object is rejected; otherwise the rendered values are those of the overrides and the stored ones they leave alone |
| RrtPaths.PrecedenceExactly | icopa_hub/profiling_exps/celery_tasks.py:294-303 | a stored snapshot decides alone, then the text of the action; only without them are configuration, own and automatic overrides merged, the automatic ones winning |
| RrtMerge.MergeTwiceIsOnce | icopa_hub/profiling_exps/celery_tasks.py:320-327 | applying the same overrides twice equals applying them once |
| RrtMerge.MergeIntoEmpty | icopa_hub/profiling_exps/api.py:313-320 | merging into an empty object gives the overrides |
| RrtMerge.RenderersAgreeExactly | icopa_hub/profiling_exps/api.py:495-516 | the snapshot renderer and the executor's renderer give the same configuration or both reject, except exactly for falsy documents that are neither null nor objects |
| RrtMerge.SnapshotMatchesRecomputation | icopa_hub/profiling_exps/celery_tasks.py:294-303 | an action without overrides of its own gets the same effective configuration from the stored snapshot as from recomputation, with the same exact exception |
| RrtMerge.OwnOverridesSurviveExactly | icopa_core/task_executor/vm_exec.py:36-57 | an action's own overrides are unaffected by the snapshot for every base object exactly when the automatic overrides already win everywhere |
| RrtCheck.FlattenLeafPaths | icopa_hub/profiling_exps/api.py:323-331 | the list holds exactly the dotted texts of the leaf paths of the payload |
| RrtCheck.HasPath | icopa_hub/profiling_exps/api.py:334-340 | the walk answers whether the split path leads through nested objects to a key |
| RrtCheck.MissingPaths | icopa_hub/profiling_exps/api.py:411-427 | no path is reported missing exactly when every leaf path of the overrides is found in the base |
| RrtCheck.SplitAfterJoin | icopa_hub/profiling_exps/api.py:323-340 | splitting a joined path gives the segments of its keys |
| RrtCheck.SplitOfPlainPath | icopa_hub/profiling_exps/api.py:334-340 | for non-empty keys without dots, splitting a joined path gives the path back |
| RrtCheck.CheckIsSoundAndComplete | icopa_hub/profiling_exps/api.py:411-427 | for plain keys and no empty maps the check accepts exactly the overrides whose merge introduces no key path the base lacked |
| RrtCheck.CheckIsRightExactly | icopa_hub/profiling_exps/api.py:411-427 | the check is right for every base exactly when the overrides have plain keys and no empty map inside |
| RrtOverrides.VariantOverrides | icopa_hub/profiling_exps/celery_tasks.py:330-393 | the three loops leave for each component the parameters of its section: aliases first, long names after them, the last setting of a parameter winning, and no block for a component without parameters |
| RrtAxes.ParametersExactly | icopa_hub/profiling_exps/celery_tasks.py:330-393 | every parameter of the overrides stands under its component with the value of the last long axis that addresses it, or else of the short axis that wins for it |
| RrtAxes.LongAxisIsRead | icopa_hub/profiling_exps/celery_tasks.py:357-386 | a long axis of either component, with a colon or a dot and with or without the parameter section, addresses the parameter it ends with |
| RrtOverrides.SectionExactly | icopa_hub/profiling_exps/celery_tasks.py:357-386 | a parameter is in a section exactly when some setting of it is replaced by no later one, and has that setting's value |
| RrtOverrides.DerivedCheckIsRightExactly | icopa_hub/profiling_exps/api.py:343-427 | for the overrides derived from a variant the check is right for every base exactly when no long axis name leaves a dot in its parameter and every value that stays is proper |
| RrtOverrides.DottedAxisFoolsTheCheck | icopa_hub/profiling_exps/api.py:365-427 | the axis `icopa_sender:qos.depth` is accepted against a base with the nested parameter only, although the merge adds a key path |
| Templates.MatchIsSpelling | icopa_core/task_executor/exec_pipeline_gen.py:14-18 | a placeholder is recognised at a position exactly when the text there begins with its spelling |
| Templates.MatchesAreOccurrences | icopa_core/task_executor/exec_pipeline_gen.py:264-275 | substitution visits exactly the placeholders that occur in the text |
| Templates.RenderSucceedsExactly | icopa_core/task_executor/exec_pipeline_gen.py:234-275 | rendering succeeds exactly when the variant has every key that a variant placeholder of the document names and there is an edge that has every key an edge placeholder names; a failure consists of exactly the others |
| Templates.RenderKeepsShape | icopa_core/task_executor/exec_pipeline_gen.py:240-262 | map keys, list lengths and non-string leaves are kept, placeholder-free strings are unchanged, a lone placeholder gives the value that the variant or the edge has under its key, and any other string is substituted |
| Templates.SubstitutionOfPlainText | icopa_core/task_executor/exec_pipeline_gen.py:264-275 | text without placeholders is left as it is |
| Templates.SubstitutionSplits | icopa_core/task_executor/exec_pipeline_gen.py:264-275 | a placeholder between two texts is replaced by the text of the value that the variant or the edge has under its key, and the texts around it are rendered independently |
| Templates.EdgeCheckExactly | icopa_core/task_executor/exec_pipeline_gen.py:204-211 | the static check finds an edge placeholder exactly when one occurs in the document |
| Templates.CheckedDocumentHasEdgeContext | icopa_core/task_executor/exec_pipeline_gen.py:214-231 | a document that passed the check never fails for lack of an edge |
| Targeting.TargetRefFromString | icopa_core/task_executor/targeting.py:21-42 | the delimiter loop splits at the earlier of the two delimiters that are not at the front |
| Targeting.ReparseExactly | icopa_core/task_executor/targeting.py:21-42 | a node name read back as a target denotes that node exactly when no delimiter splits it |
| Targeting.NamespacedIsRead | icopa_core/task_executor/targeting.py:21-42 | a name behind a kind and either delimiter is read as a reference of that kind, whatever delimiters the name has |
| Targeting.ResolvedExactly | icopa_core/task_executor/targeting.py:75-110 | a complete reference resolves exactly when some VM node has the name or the site label, and then to all of them |
| Targeting.Resolved | icopa_core/task_executor/targeting.py:75-110 | a resolved reference is a non-empty, strictly ascending list of VM nodes of the scenario |
| Targeting.ResolveTargetRef | icopa_core/task_executor/targeting.py:75-110 | the scan for a named VM and the collection of a site compute the resolution, with its errors |
| Targeting.ResolveRefs | icopa_core/task_executor/targeting.py:138-158 | the loop over a target list gives the union of the resolved nodes or the first error |
| Targeting.NormalizeActionTargets | icopa_core/task_executor/targeting.py:113-161 | one copy of the action per resolved node, or its target list resolved, sorted and free of duplicates |
| Targeting.AimedActionIsFixed | icopa_core/task_executor/targeting.py:118-136 | resolving an action already aimed at a VM node changes nothing |
| Targeting.TargetListIsFixed | icopa_core/task_executor/targeting.py:138-161 | resolving an ascending list of self-reading names changes nothing |
| Targeting.ReadsItselfExactly | icopa_core/task_executor/targeting.py:21-110 | a VM name read back resolves to that VM alone exactly when no delimiter splits it or it spells a site whose only VM it is |
| Targeting.ListsAreFixedExactly | icopa_core/task_executor/targeting.py:138-161 | for given nodes every ascending list of VM names resolves to itself exactly when every VM name is self-reading |
| Targeting.SplitNameIsRedirected | icopa_core/task_executor/targeting.py:21-42 | a listed node named `vm/x` is replaced by the node `x` |
| ActionCenter.NormalizeSingleTarget | icopa_core/task_executor/action_center.py:151-185 | one action per resolved node, or the error for a missing or misplaced reference |
| ActionCenter.NormalizeMultiTarget | icopa_core/task_executor/action_center.py:188-224 | one action with the sorted set of resolved nodes, or the error |
| ActionCenter.NormalizeActionPayload | icopa_core/task_executor/action_center.py:227-284 | validation, then the normalisation of the catalog's target mode |
| ActionCenter.PassesExactly | icopa_core/task_executor/action_center.py:227-265 | which payloads pass: no retired or unknown field, a known type, its required parameters, a duration to wait for, a preset exactly where one is run |
| ActionCenter.RefusalIsJustified | icopa_core/task_executor/action_center.py:227-265 | the error of a refused payload names a check that the payload fails |
| ActionCenter.AcceptedExactly | icopa_core/task_executor/action_center.py:151-284 | a payload is accepted exactly when it passes and names no target, one reference, or a list of references, as its type wants, each of which means some VM node |
| ActionCenter.NormalizedCarriesOver | icopa_core/task_executor/action_center.py:151-284 | every normalised action has the type, the parameters and, unless it lists targets, the preset of its payload |
| ActionCenter.NormalizedAimsExactly | icopa_core/task_executor/action_center.py:151-224 | one untargeted action, one action for each node the reference means, or one that lists all nodes the references mean |
| ActionCenter.NormalizedIsCanonical | icopa_core/task_executor/action_center.py:151-224 | normalisation gives at least one action, each untargeted, aimed at one VM node, or listing VM nodes in ascending order |
| ActionCenter.TargetedStaysWithin | icopa_core/task_executor/targeting.py:113-161 | resolving a canonical action leaves it aimed at VM nodes only |
| ActionCenter.SecondPassIsIdentity | icopa_core/task_executor/exec_pipeline_gen.py:648-670 | every normalised action resolves to itself, provided the names in its own target list are self-reading |
| Variants.ProductAt | icopa_core/task_executor/exec_pipeline_gen.py:585-594 | every choice of axis values stands in the product at its mixed-radix number |
| Variants.ProductOnly | icopa_core/task_executor/exec_pipeline_gen.py:585-594 | every row of the product is such a choice |
| Variants.PositionIsLexicographic | icopa_core/task_executor/exec_pipeline_gen.py:585-594 | rows follow the lexicographic order of choices, the first axis by name varying slowest |
| Variants.ExpandedHasChoice | icopa_core/task_executor/exec_pipeline_gen.py:596-615 | a kept choice is in the expansion, after exactly the kept choices numbered below it |
| Variants.ExpandedOnlyChoices | icopa_core/task_executor/exec_pipeline_gen.py:596-615 | every row of the expansion is a choice that matches an include filter, if there are any, and no exclude filter |
| RunIds.RunIdInjective | icopa_core/task_executor/exec_pipeline_gen.py:804-807 | different positions have different identifiers, for every count |
| RunIds.RunIdIsRead | icopa_core/task_executor/exec_pipeline_gen.py:804-807 | an identifier is `run-` and the decimal number of the position in at least three digits |
| PhaseSpecs.ExtractPhaseTemplates | icopa_core/task_executor/exec_pipeline_gen.py:102-136 | templates by name, a later one replacing an earlier one, or the first error, among them phases in the scenario and values of the wrong kind |
| PhaseMeaning.TemplatesAsWritten | icopa_core/task_executor/exec_pipeline_gen.py:102-136 | templates are known by their names, and the last entry of a name gives the actions |
| PhaseSpecs.ExtractNamedEdges | icopa_core/task_executor/exec_pipeline_gen.py:155-201 | the named edges in graph order with pairwise different names and an index that agrees with them, or the first error, also for a malformed graph or entry |
| PhaseMeaning.EdgesAsWritten | icopa_core/task_executor/exec_pipeline_gen.py:155-201 | a graph is accepted exactly when every entry has its two known ends and no name is used twice; the edges then stand for the named entries in order, with name and both ends where placeholders read them |
| PhaseMeaning.EdgeRefusalIsJustified | icopa_core/task_executor/exec_pipeline_gen.py:155-201 | the error of a refused graph names what is wrong with one of its entries |
| PhaseSpecs.ExtractPhaseEntries | icopa_core/task_executor/exec_pipeline_gen.py:387-436 | the experiment's own phases followed by those of its edge groups with inherited edge references, or the first error, among them the retired phase fields and groups that are no objects |
| PhaseMeaning.EntriesAsWritten | icopa_core/task_executor/exec_pipeline_gen.py:387-436 | when the phases are refused, and that the accepted ones are the experiment's own followed by those of the groups, bound to the group's edges unless they name edges themselves |
| PhaseSpecs.NormalizeEdgeRefs | icopa_core/task_executor/exec_pipeline_gen.py:439-455 | the distinct references in order of first appearance |
| PhaseSpecs.ExtractPhaseSpecs | icopa_core/task_executor/exec_pipeline_gen.py:458-534 | one specification per entry, or the first error in the order of the checks |
| PhaseMeaning.SpecsAsWritten | icopa_core/task_executor/exec_pipeline_gen.py:458-534 | phases are accepted exactly when every entry is acceptable, and each then has the name, mode, actions and edges its entry or its template gives it |
| PhaseMeaning.PhaseRefusalIsJustified | icopa_core/task_executor/exec_pipeline_gen.py:458-534 | the error of a refused phase names a check that its entry fails |
| PhaseSpecs.AcceptedSpecsAreChecked | icopa_core/task_executor/exec_pipeline_gen.py:458-534 | every accepted phase has actions that are objects, known non-blank edge references, and edge references if it uses edge placeholders |
| PlanCompiler.ExtractEdgeAxes | icopa_core/task_executor/exec_pipeline_gen.py:327-384 | the axes by edge, or the first error |
| PlanCompiler.SelectRunEdges | icopa_core/task_executor/exec_pipeline_gen.py:688-727 | the selected edges or the error of the selection |
| PlanCompiler.MaterializePhases | icopa_core/task_executor/exec_pipeline_gen.py:618-685 | the phases of a run with rendered, normalised and resolved actions, or the first error |
| PlanCompiler.AppendEdgeRuns | icopa_core/task_executor/exec_pipeline_gen.py:773-818 | the runs of one edge appended under consecutive identifiers |
| PlanCompiler.CompileExperimentPlan | icopa_core/task_executor/exec_pipeline_gen.py:730-828 | the whole compilation with every error in its order |
| PlanTheorems.SelectionSucceeds | icopa_core/task_executor/exec_pipeline_gen.py:688-727 | for checked phases edge selection cannot fail and every selected edge has a phase |
| PlanTheorems.CompiledActionsAreNormalized | icopa_core/task_executor/exec_pipeline_gen.py:648-670 | when the names in the target lists of the normalised actions are self-reading, the compiled actions are the normalised ones |
| PlanTheorems.CompilationIgnoresTemplateModes | icopa_core/task_executor/exec_pipeline_gen.py:458-534 | changing the modes that phase templates declare changes neither the compiled plan nor the error |
| PlanTheorems.EarlyChecksSuffice | icopa_core/task_executor/exec_pipeline_gen.py:730-828 | no compilation ends with a missing edge context, an edge-selection error, an empty action or phase list, a run without phases, a run count below one or, when all VM names are self-reading, an invalid target |
| SmallestPlan.SmallestPlanCompiles | icopa_core/task_executor/exec_pipeline_gen.py:730-828 | an experiment with one phase, one template and one untargeted action compiles, so the conditions of the theorems about compiled plans can be met |
| PlanGrid.PlanIsTheGrid | icopa_core/task_executor/exec_pipeline_gen.py:773-818 | run by run, the plan is the sequence of edges and kept variants with their phases and runtime, numbered from 1, with pairwise distinct identifiers |
| PlanGrid.CellAt | icopa_core/task_executor/exec_pipeline_gen.py:775-818 | the k-th variant of the e-th edge comes after all runs of the edges before it |
| PlanMeaning.EveryKeptChoiceHasItsRun | icopa_core/task_executor/exec_pipeline_gen.py:775-818 | every choice of values from the axes the experiment writes for a selected edge that its filters admit has a run |
| PlanMeaning.EveryRunIsAKeptChoice | icopa_core/task_executor/exec_pipeline_gen.py:775-818 | every run belongs to a selected edge, makes a choice from the axes written for it, and is admitted by the filters |
| PlanMeaning.RunAxesAsWritten | icopa_core/task_executor/exec_pipeline_gen.py:775-790 | the axes of a run are, name by name, those the edge groups give its edge, and under the other names the global ones |
| PlanMeaning.EdgeAxesAcceptedExactly | icopa_core/task_executor/exec_pipeline_gen.py:327-384 | edge groups are refused exactly when one is malformed or two of them give one edge different axes |
| PlanMeaning.RunsRealiseTheirPhases | icopa_core/task_executor/exec_pipeline_gen.py:618-685 | the phases of a run are those that belong to its edge, in order, and their actions carry the type and parameters of the action documents with every placeholder replaced by the value the run's variant or edge has |
| PlanMeaning.PhasesAsWritten | icopa_core/task_executor/exec_pipeline_gen.py:730-772 | the phases a plan is built from say, one by one, what the experiment writes |
| PlanMeaning.EdgesOfAPlan | icopa_core/task_executor/exec_pipeline_gen.py:688-727 | the runs are over exactly the named edges of the graph that some phase names, with the values written there |
| PlanMeaning.LimitExactly | icopa_core/task_executor/exec_pipeline_gen.py:730-828 | a limit on the number of runs refuses exactly the plans that have more |
| PlanGrid.ReferencedEdgesKeepGraphOrder | icopa_core/task_executor/exec_pipeline_gen.py:688-727 | a referenced edge is selected after exactly the referenced edges before it in the graph |
| PlanGrid.OnlyReferencedEdges | icopa_core/task_executor/exec_pipeline_gen.py:688-727 | nothing but referenced edges is selected, and a plan without references has one run context without an edge |
| PlanCompiler.NormalizeAxisMap | icopa_core/task_executor/exec_pipeline_gen.py:283-295 | the loop over raw axes trims names, wraps single values, lets a later entry replace an earlier one, and stops at the first error |
| PlanCompiler.CollectAxes | icopa_core/task_executor/exec_pipeline_gen.py:278-324 | the exploration axes completed by the selections, or the first error |
| PlanGrid.GlobalAxisExactly | icopa_core/task_executor/exec_pipeline_gen.py:278-324 | an axis has the values of its last exploration entry, or else of its first selection, names being compared trimmed |
| PlanGrid.GlobalAxesAcceptedExactly | icopa_core/task_executor/exec_pipeline_gen.py:278-324 | the axes are refused exactly for values of the wrong kind, a blank exploration name, an exploration axis without values, or a name left free whose first selection has none |
| PlanGrid.EdgeAxesAreTheGroups | icopa_core/task_executor/exec_pipeline_gen.py:327-384 | an edge has given axes exactly when some group gives them to it |
| PlanGrid.PlanTargetsExist | icopa_core/task_executor/exec_pipeline_gen.py:639-670 | every target of every compiled action is a VM node of the scenario |
| Inventory.ResolveVm | icopa_hub/profiling_exps/celery_tasks.py:22-43 | the VM named by the node's ref, or else by its name |
| Inventory.BuildInventory | icopa_hub/profiling_exps/celery_tasks.py:72-94 | the loop yields one entry per VM node with a usable VM, a later node replacing an earlier one of its name, and one error per other VM node in node order |
| Inventory.InventoryExactly | icopa_hub/profiling_exps/celery_tasks.py:72-94 | the keys are exactly the names of the VM nodes with a usable VM, and there are no errors exactly when every VM node has one |
| Inventory.EntriesExactly | icopa_hub/profiling_exps/celery_tasks.py:72-94 | every entry holds the usable VM that the ref of a node of that name names, or else its name |
| Inventory.ErrorsExactly | icopa_hub/profiling_exps/celery_tasks.py:72-94 | a missing VM and a missing credential are reported for exactly the VM nodes concerned |
| Inventory.CoverageExactly | icopa_hub/profiling_exps/celery_tasks.py:72-94 | an inventory built without errors covers targeting's VM nodes exactly when each of their names is written unpadded by a node of kind vm |
| Inventory.TrimmedNodesAreCovered | icopa_hub/profiling_exps/celery_tasks.py:72-94 | without surrounding whitespace the two modules see the same VM nodes |
| Inventory.BlankInNameIsNotCovered | icopa_hub/profiling_exps/celery_tasks.py:80-84 | one padded name is a valid target without an inventory entry |
| Inventory.PlanTargetsAreInInventory | icopa_hub/profiling_exps/celery_tasks.py:72-94 | every target of a compiled plan is an inventory key when the inventory was built without errors and every VM node is written unpadded |
| GeneratedPlans.CompiledPlansAreGenerated | icopa_hub/profiling_exps/api.py:1050-1062 | compiled plans have at least one run, all with non-empty and pairwise distinct identifiers |
| GeneratedPlans.PrechecksCoverTheTargets | icopa_hub/profiling_exps/celery_tasks.py:632-650 | the prechecks of a compiled run look at exactly the nodes it is aimed at, or at the whole inventory when there are none, when every VM node is written unpadded |
| RuntimeCache.VerifiedStep | icopa_hub/profiling_exps/celery_tasks.py:238-241 | how one more check changes which nodes the history shows verified |
| RuntimeCache.ElidedExactly | icopa_hub/profiling_exps/celery_tasks.py:151-168 | a runtime check is dropped exactly for a connectivity action without a flag of its own on a known node that the history shows verified; every other action is sent unchanged |
| RuntimeCache.Cache.Record | icopa_hub/profiling_exps/celery_tasks.py:171-248 | after recording an outcome the set again holds exactly the known nodes with a successful runtime check and no later failed check |
| RunTracker.Tracker.constructor | icopa_hub/profiling_exps/celery_tasks.py:446-489 | one pending entry per run with its phases and actions, a repeated identifier keeping the last |
| RunTracker.Tracker.SetRunStatus | icopa_hub/profiling_exps/celery_tasks.py:532-550 | only the status of this run changes, and only if it has an entry |
| RunTracker.Tracker.SetPhaseStatus | icopa_hub/profiling_exps/celery_tasks.py:553-575 | only the status of this phase changes, and only if it exists |
| RunTracker.Tracker.SetActionStatus | icopa_hub/profiling_exps/celery_tasks.py:578-607 | only the status of this action changes, and only if it exists |
| RunTracker.Tracker.MarkPendingSkipped | icopa_hub/profiling_exps/celery_tasks.py:610-621 | exactly the pending runs become skipped |
| RunTracker.BuiltHasRuns | icopa_hub/profiling_exps/celery_tasks.py:446-489 | with distinct identifiers the tracker has exactly the runs, all pending |
| RunExecutor.Precheck | icopa_hub/profiling_exps/celery_tasks.py:956-1003 | every target is checked, also after a failure, with the cached flag; the outcome is whether all passed |
| RunExecutor.TargetsToCheck | icopa_hub/profiling_exps/celery_tasks.py:632-650 | the run's targets in the inventory in ascending order, or the whole inventory |
| RunExecutor.ExecuteAction | icopa_hub/profiling_exps/celery_tasks.py:1105-1339 | one action is sent with the cached flag, recorded in the history, and marked succeeded or failed |
| RunExecutor.ExecutePhase | icopa_hub/profiling_exps/celery_tasks.py:1085-1385 | the actions run up to the first failure; the phase entry, the outcomes and the history are exactly those |
| RunExecutor.ExecuteRun | icopa_hub/profiling_exps/celery_tasks.py:871-1447 | the ending, the result entry, the tracker entry and the history of one run |
| ExecutionTheorems.EndingExactly | icopa_hub/profiling_exps/celery_tasks.py:895-1013 | a run fails its prechecks exactly when they are asked for, no action checks connectivity itself, and a node that it names in the inventory, or any node when it names none, fails; it completes exactly when environment, checks and all actions succeed |
| ExecutionTheorems.RunLeavesExactly | icopa_hub/profiling_exps/celery_tasks.py:895-1447 | a run that does not start leaves all its phases pending and an empty result, one that completes leaves them succeeded and lists every action |
| PlanExecution.ExecutePlan | icopa_hub/profiling_exps/celery_tasks.py:778-1464 | report, tracker and history of a task are those of its specification, with the stop after the first failure and the inventory failure |
| ExecutionTheorems.RunSucceedsExactly | icopa_hub/profiling_exps/celery_tasks.py:895-1447 | tracker and results agree, and a run succeeds exactly when its environment exists, every node its precheck has to look at passes, and every action succeeds |
| ExecutionTheorems.FailureIsUnique | icopa_hub/profiling_exps/celery_tasks.py:1082-1391 | a failed run has exactly one failed action, all before it succeeded, all after it pending, with matching phases and results |
| ExecutionTheorems.ReportAgrees | icopa_hub/profiling_exps/celery_tasks.py:863-1467 | a run task succeeds exactly when every run does, which is when nothing is counted as failed; the counters add up; with stopOnFailure the runs before the first failure succeed and none after it starts |
| ExecutionTheorems.ResultsAgree | icopa_hub/profiling_exps/celery_tasks.py:863-1420 | the counters count the entries of the results list, an entry that is no object counting as failed |
| ExecutionTheorems.ResultsInOrder | icopa_hub/profiling_exps/celery_tasks.py:863-1420 | every run that is an object has its entry in the results list, under its identifier and after exactly the entries of the objects before it |
| ExecutionTheorems.TrackerAgrees | icopa_hub/profiling_exps/celery_tasks.py:863-1447 | each tracker entry is succeeded, failed, skipped or pending exactly according to whether the task gets to its run and how that ended; without an inventory all are failed |
| ExecutionTheorems.SplittingRefinesThePlan | icopa_hub/profiling_exps/api.py:181-189 | the single-run plans executed one after another give the same results in the same order, the same stop and the same sums as the one task |
| ExecutionTheorems.SplittingWithoutInventory | icopa_hub/profiling_exps/celery_tasks.py:805-838 | without an inventory the failure counts agree exactly for one run, or for several without stopOnFailure |
| RunRecords.DrainExecutes | icopa_hub/profiling_exps/celery_tasks.py:653-728 | a drain executes the chosen record and then the waiting records of its generation in (created_at, id) order, each once, up to the first that forbids the next, or all of them |
| RunRecords.DrainGoesByAge | icopa_hub/profiling_exps/celery_tasks.py:653-692 | after the chosen record a drain takes waiting records of its generation, the oldest first, and the smaller id among equally old ones |
| RunRecords.DrainLeaves | icopa_hub/profiling_exps/celery_tasks.py:1463-1490 | each executed record has the report of its plan and is succeeded exactly when that is ok and failed otherwise; no other record changes |
| RunRecords.StatusAfterDrain | icopa_hub/profiling_exps/models.py:143-163 | after a drain of the current generation the experiment is finished exactly when each of its records was executed and all runs of its plan succeeded, or had succeeded before; waiting exactly when the drain stopped early; and in error otherwise |
| RunRecords.StatusExactly | icopa_hub/profiling_exps/models.py:143-164 | which status any set of records gives: in progress with one running record, then waiting with one waiting record, finished only when all succeeded |
| RunRecords.DrainStopsRunning | icopa_hub/profiling_exps/celery_tasks.py:658-692 | a drain leaves nothing running that was not running before |
| RunRecords.RecordedWaitInOrder | icopa_hub/profiling_exps/api.py:1050-1091 | the records of a generated plan wait in plan order |
| RunRecords.DrainIsTheChain | icopa_hub/profiling_exps/celery_tasks.py:653-728 | starting the first record of a generated plan executes the records in plan order and yields the reports of the single-run plans executed one after another |
| RunRecords.DrainRefinesThePlan | icopa_hub/profiling_exps/celery_tasks.py:653-728 | the reports left by draining a freshly generated plan have together the results, in order, the counters and the success of the one task over the whole plan |
| RunDispatch.Experiment.SyncStatus | icopa_hub/profiling_exps/models.py:165-178 | the status becomes the one derived from the records |
| RunDispatch.Experiment.Task | icopa_hub/profiling_exps/celery_tasks.py:731-1500 | a task ends its record with the report of its plan and leaves the outlook that draining specifies; the recursion ends because the waiting records of the generation decrease |
| RunDispatch.Experiment.Dispatch | icopa_hub/profiling_exps/celery_tasks.py:653-728 | the next waiting record is claimed and enqueued or executed on the spot, with the same outlook |
| RunDispatch.Experiment.Deliver | icopa_hub/profiling_exps/celery_tasks.py:731-745 | handling a message keeps the outlook, keeps at most one record running, and makes progress |
| RunDispatch.Experiment.Drain | icopa_hub/profiling_exps/celery_tasks.py:653-728 | whichever enqueues fail, records and execution order come out as draining specifies, with the derived status; every executed record has the report of its plan and the status that report gives it |
| RunDispatch.Experiment.Generate | icopa_hub/profiling_exps/api.py:1050-1101 | one waiting record per run under a fresh generation number |
| RunDispatch.Experiment.Start | icopa_hub/profiling_exps/api.py:1750-1848 | the answer in every case, accepted exactly when there is a plan, nothing runs, and the requested or first record waits; otherwise nothing changes |
| RunDispatch.Experiment.Rerun | icopa_hub/profiling_exps/api.py:1465-1655 | accepted exactly for a known record while nothing runs; a rerun in a new generation executes that record alone, one in place continues with the waiting records of its generation |
| ProbeSessions.EveryRunIsSafe | icopa_hub/micro_probing/tasks.py:13-63 | after any events each session has bounds that were checked, was claimed at most once, has windows 1..k, succeeded only with all its windows error-free, and an owner has at most one active session per pair |
| ProbeSessions.TerminalIsForever | icopa_hub/micro_probing/models.py:41-48 | terminal statuses never change and windows are never lost |
| ProbeSessions.EndingFromOutsideIsFinal | icopa_hub/micro_probing/models.py:41-48 | a user stop ends a waiting or running session as stopped and a failed dispatch as failed, for good |
| ProbeSessions.OnlyTheUserStops | icopa_hub/micro_probing/models.py:41-48 | no other event stops a session |
| ProbeSessions.AtMostOneLateWindow | icopa_hub/micro_probing/tasks.py:31-53 | a session gains at most one window after leaving its active statuses |
| ProbeSessions.EventKeepsInv | icopa_hub/micro_probing/models.py:29-39 | every event keeps the invariant, including the uniqueness of the active pair |
| ProbeSessions.CreatedExactly | icopa_hub/micro_probing/models.py:29-39 | a session is created exactly within the bounds and when its owner has no waiting or running session for the pair |
| ProbeWorker.Hub.Claim | icopa_hub/micro_probing/tasks.py:24-29 | the conditional update claims exactly a pending session |
| ProbeWorker.Hub.Finish | icopa_hub/micro_probing/models.py:41-48 | the conditional update closes exactly an active session |
| ProbeWorker.Hub.CreateWindow | icopa_hub/micro_probing/tasks.py:47-50 | the window is stored under the next number, which is free |
| ProbeWorker.Hub.Pause | icopa_hub/micro_probing/tasks.py:54-58 | the pause ends with the next window after as many looks at the status as the interval has seconds or, once the session is no longer running, with the worker gone |
| ProbeWorker.Hub.ExecuteProbeSession | icopa_hub/micro_probing/tasks.py:22-63 | whatever happens between its accesses, the worker only makes steps of the machine and ends; undisturbed it makes a waiting session succeed with all windows when every measurement works and fail otherwise |
| ProbeLookup.LatestMeasurements | icopa_hub/micro_probing/lookup.py:22-48 | one row per listed window, in order |
| ProbeLookup.SelectedExactly | icopa_hub/micro_probing/lookup.py:9-21 | a window is selected exactly when it matches the query and no other window of its pair for the user is newer |
| ProbeLookup.ListingExactly | icopa_hub/micro_probing/lookup.py:9-21 | newest first, one window per pair, cut only by the limit, and whatever is cut is older than everything listed |
| ProbeLookup.UsableIsNewest | icopa_hub/micro_probing/lookup.py:27-39 | a usable row shows the newest window of its pair, which succeeded and is recent |
| ProbeLookup.UsableExactly | icopa_hub/micro_probing/lookup.py:24-47 | a row is usable exactly when its window is error-free, reachable and recent, both VMs are still the user's own at the measured addresses, and the session runs or has succeeded |
| ProbeLookup.NewestFailureHidesThePair | icopa_hub/micro_probing/lookup.py:34-39 | when the newest window of a pair failed, no row of the pair is usable |
| CloudVm.TaskAlwaysFits | icopa_hub/cloud_provisioning/celery_tasks.py:226-238 | in every run, although calls add tasks without looking at those in flight, each record has at most one provision or deprovision task, whose kind and stage fit the status |
| CloudVm.DeletedIsForever | icopa_hub/cloud_provisioning/api.py:119-185 | nothing revives a deleted record or changes its linked VM |
| CloudVm.LeavesWaitingExactly | icopa_hub/cloud_provisioning/api.py:131-190 | a PENDING or DELETING record can reach another status exactly when its task is in flight |
| CloudVm.LostTasksAreReachable | icopa_hub/cloud_provisioning/api.py:131-190 | one refused enqueue leaves an uploaded record PENDING, and a created one DELETING, without a task |
| CloudVm.DeletedMeansArchivedExactly | icopa_hub/cloud_provisioning/celery_tasks.py:175-223 | in every run the VM of every deleted record is archived exactly when no two records share an inventory name |
| CloudVm.ComesUpAgainExactly | icopa_hub/cloud_provisioning/celery_tasks.py:784-846 | over all futures, the VM of a deleted record with an inventory name of its own can become active exactly when a start task of the record is in flight |
| CloudVm.LateStartIsReachable | icopa_hub/cloud_provisioning/celery_tasks.py:784-846 | a run in which a record is deleted while its start task is in flight, and the archived VM becomes active |
| CloudVm.StartExactly | icopa_hub/cloud_provisioning/celery_tasks.py:784-846 | a start that succeeds marks the VM up and the record SUCCEEDED, also after a failure; one that fails changes nothing |
| CloudVm.StopExactly | icopa_hub/cloud_provisioning/celery_tasks.py:593-660 | a stop that succeeds marks the VM down and leaves the status; one that fails changes nothing |
| CloudVm.FailedIsCreatedAgain | icopa_hub/cloud_provisioning/api.py:119-150 | a record whose provisioning failed can be created again and then has its VM up |
| CloudService.Service.Create | icopa_hub/cloud_provisioning/api.py:119-150 | accepted exactly from INITIALIZED and FAILED, ending in an error when the broker refuses the task; the state moves as the machine says |
| CloudService.Service.Delete | icopa_hub/cloud_provisioning/api.py:153-190 | accepted exactly from INITIALIZED, SUCCEEDED and FAILED, an INITIALIZED record being deleted at once, ending in an error when the broker refuses the task |
| CloudService.Service.Start | icopa_hub/cloud_provisioning/api.py:309-348 | accepted exactly from SUCCEEDED and FAILED, where it adds a start task, or ends in an error and changes nothing when the broker refuses |
| CloudService.Service.Stop | icopa_hub/cloud_provisioning/api.py:246-286 | accepted exactly from SUCCEEDED and FAILED, where it adds a stop task, or ends in an error and changes nothing when the broker refuses |
| CloudService.Service.BeginTask | icopa_hub/cloud_provisioning/celery_tasks.py:230-238 | the first transaction of a task marks the record and its task as begun |
| CloudService.Service.EndProvision | icopa_hub/cloud_provisioning/celery_tasks.py:313-431 | success with an address links and activates the inventory VM, anything else fails the record |
| CloudService.Service.EndDeprovision | icopa_hub/cloud_provisioning/celery_tasks.py:472-512 | success archives the linked VM and deletes the record, anything else fails it |
| CloudService.Service.FinishStart | icopa_hub/cloud_provisioning/celery_tasks.py:784-846 | success marks the linked VM active and turns FAILED into SUCCEEDED, leaving every other status |
| CloudService.Service.FinishStop | icopa_hub/cloud_provisioning/celery_tasks.py:593-660 | success marks the linked VM inactive and leaves the status |
| RuntimePresets.Loader.AddPresets | icopa_core/runtime_env/runtime_env_image_loader.py:203-225 | the in-place loop extends presets and groups as specified or stops at the first bad entry |
| RuntimePresets.Loader.Load | icopa_core/runtime_env/runtime_env_image_loader.py:125-160 | the spec's own presets, then the groups, or the first error |
| RuntimePresets.WrittenIsRead | icopa_core/runtime_env/runtime_env_image_loader.py:228-257 | a preset is read back from either form it can be written in, and gets the automatic executor when it names none |
| RuntimePresets.LoadSucceedsExactly | icopa_core/runtime_env/runtime_env_image_loader.py:131-160 | accepted exactly when all blocks are lists, all entries are presets, entries of one name are equal and there is one; the index then holds exactly those, groups in order of first appearance without repeats |
| RuntimePresets.OrderOfGroupsIsIrrelevant | icopa_core/runtime_env/runtime_env_image_loader.py:141-153 | acceptance and presets do not depend on the order of the groups |
| RuntimePresets.GroupsResolve | icopa_core/runtime_env/runtime_env_image_loader.py:66-71 | every listed group is non-empty, free of duplicates, and resolves to presets in its order |

## Left out

- HTTP parsing, serializers, the ORM, SSH, docker, Azure REST calls and the broker: their outcomes are parameters.
- Insertion order of dictionaries inside documents: documents are maps, so which of several rendering faults is raised
  first is not modelled (a rendering failure carries the set of all faults). Axes, selections and variants are lists of
  entries in their order.
- Python's numeric equality between booleans, integers and floats; numbers are integers.
- Choice of the runtime environment for a variant: `runtimeOf` is a parameter of the compiler.
- Parsing of `wait` seconds as floating-point numbers: the catalog says which values are durations.
- Error texts, timestamps other than as ordering keys, tracker events and their truncation, hashes and base64 copies,
  and the names, types and targets copied into tracker and result entries.
- The flag `metrics_collected` and the RRT snapshots that a task writes.
- Exceptions other than a failed action that escape a task, and database errors: a task always reaches its end.
- PlanCompiler.CompileExperimentPlan: the plan's metadata, its name, scenario and environment references, and the texts
  of errors are not modelled; all values of the wrong kind give one error.
- RunExecutor.ExecuteAction: preparing the parameters of an action and reading its metrics settings are not modelled.
- ExecutionTheorems.SplittingRefinesThePlan: how a check or an action of a run turns out is fixed in advance, so it does
  not depend on the runtime flag it is sent with or on which task executes the run; plans come from the compiler.
- PlanExecution.ExecutePlan: the completed counter after an inventory failure is 0, the value every record has when it
  is created or reset; the code leaves the field as it was.
- RunDispatch.Experiment.Dispatch: a claim lost to another worker is not modelled, because every step keeps at most one
  record running; message deliveries happen exactly once, and start and rerun calls are atomic steps of one user.
- RunDispatch.Experiment.Generate: replacing an existing generation or a single pending run is not modelled, so
  generation numbers only grow here; creation times do not decrease while one plan's records are created.
- RunDispatch.Experiment.Rerun: a failure to delete or write artifacts of the run is not modelled.
- Empty payload snapshots, for which the executor falls back to the experiment's whole payload.
- ProbeSessions.EveryRunIsSafe: sessions and VMs are never deleted, and window lengths and addresses are not part of
  the state.
- CloudVm.TaskAlwaysFits: check requests, which may move a pending record to SUCCEEDED, are not modelled; records of
  other providers than Azure, which every call refuses, are not either; the inventory name of a record is fixed.
- CloudVm.LeavesWaitingExactly: the futures consist of create, delete, start and stop calls and their tasks; a check
  request could move a pending record.
- CloudVm.DeletedMeansArchivedExactly: the inventory is written by these tasks only.
- CloudVm.ComesUpAgainExactly: the same, and the record's inventory name is its own.
- Stress limits, executor registry, scenario summaries, port lookup, container operations and result-file lookup.
- Unicode: whitespace is blank, tab, line feed and carriage return, and lower-casing covers ASCII letters.
