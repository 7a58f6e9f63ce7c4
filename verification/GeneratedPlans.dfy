/** From the compiler to the executor: a compiled plan as the executor reads it. */
module GeneratedPlans {
  import opened Values
  import opened Ordering
  import opened RuntimeCache
  import opened RunTracker
  import opened RunExecutor
  import opened ExecutionTheorems
  import opened RunIds
  import opened Targeting
  import opened Inventory
  import ActionCenter
  import Compiler = PlanCompiler
  import PlanGrid

  function TextOf(v: Value): string {
    if v.Str? then v.s else ""
  }

  function TextsOf(v: Value): seq<string> {
    if v.List? then seq(|v.items|, i requires 0 <= i < |v.items| => TextOf(v.items[i])) else []
  }

  /** The fields of a compiled action that the executor looks at; its targets are texts or absent. */
  function ActionOf(a: ActionCenter.Action): ActionSpec {
    var parameters := Get(a, "parameters");
    ActionSpec(TextOf(Get(a, "type")), TextOf(Get(a, "target")), TextsOf(Get(a, "targets")),
               if parameters.Dict? && "check_container_runtime" in parameters.m
               then Some(parameters.m["check_container_runtime"].Truthy()) else None)
  }

  function PhaseOf(p: Compiler.Phase): PhasePlan {
    PhasePlan(p.name, seq(|p.actions|, i requires 0 <= i < |p.actions| => ActionOf(p.actions[i])))
  }

  function RunOf(r: Compiler.Run): RunSpec {
    RunSpec(r.id, Trim(r.draft.runtime), seq(|r.draft.phases|, i requires 0 <= i < |r.draft.phases| => PhaseOf(r.draft.phases[i])))
  }

  function PlanOf(runs: seq<Compiler.Run>, stopOnFailure: bool, precheck: bool): Plan {
    Plan(seq(|runs|, i requires 0 <= i < |runs| => RunOf(runs[i])), stopOnFailure, precheck)
  }

  /** A compiled plan has at least one run, and its runs are objects with pairwise distinct identifiers. */
  lemma CompiledPlansAreGenerated(x: Compiler.Input, stopOnFailure: bool, precheck: bool)
    requires Compiler.Compiled(x).Ok?
    ensures var plan := PlanOf(Compiler.Compiled(x).value, stopOnFailure, precheck);
            plan.runs != [] && Generated(plan) && DistinctIds(plan.runs)
  {
    PlanGrid.PlanIsTheGrid(x);
    hide Compiler.Compiled, Compiler.Prepared, PlanGrid.Cells, PlanGrid.Fills, RunId;
    NumberedRunsAreGenerated(Compiler.Compiled(x).value, stopOnFailure, precheck);
  }

  lemma NumberedRunsAreGenerated(runs: seq<Compiler.Run>, stopOnFailure: bool, precheck: bool)
    requires forall i | 0 <= i < |runs| :: runs[i].id == RunId(i + 1)
    requires forall i, j | 0 <= i < j < |runs| :: runs[i].id != runs[j].id
    ensures var plan := PlanOf(runs, stopOnFailure, precheck); Generated(plan) && DistinctIds(plan.runs)
  {
    hide RunId, PhaseOf;
    var plan := PlanOf(runs, stopOnFailure, precheck);
    forall i | 0 <= i < |runs|
      ensures plan.runs[i].id == runs[i].id && plan.runs[i].id != "" && IdOf(plan.runs, i) == runs[i].id
    {
      NamedRun(i + 1);
    }
  }

  lemma NamedRun(n: nat)
    ensures RunId(n) != ""
  {
  }

  lemma ActionAimsExactly(a: ActionCenter.Action)
    requires forall t | t in ActionCenter.TargetsOf(a) :: t != "" && Trimmed(t)
    ensures ActionTargets(ActionOf(a)) == ActionCenter.TargetsOf(a)
  {
    var spec := ActionOf(a);
    var one, many := Get(a, "target"), Get(a, "targets");
    forall t | t in [spec.target] + spec.targets && Trim(t) != "" ensures Trim(t) in ActionCenter.TargetsOf(a) {
      if t == spec.target {
        assert one.Str? && t == one.s;
      } else {
        var i :| 0 <= i < |spec.targets| && spec.targets[i] == t;
        assert many.items[i].Str? && many.items[i].s == t && many.items[i] in many.items;
      }
      assert t in ActionCenter.TargetsOf(a);
    }
    forall t | t in ActionCenter.TargetsOf(a) ensures t in ActionTargets(spec) {
      if one.Str? && one.s == t {
        assert spec.target == t;
      } else {
        var i :| 0 <= i < |many.items| && many.items[i] == Str(t);
        assert spec.targets[i] == t && t in spec.targets;
      }
      assert t in [spec.target] + spec.targets && Trim(t) == t;
    }
  }

  /** The nodes that the actions of a compiled run are aimed at. */
  ghost function AimsOf(r: Compiler.Run): set<string> {
    set p, a, t | p in r.draft.phases && a in p.actions && t in ActionCenter.TargetsOf(a) :: t
  }

  lemma RunAimsExactly(r: Compiler.Run, names: set<string>)
    requires forall p | p in r.draft.phases :: forall a | a in p.actions :: ActionCenter.TargetsOf(a) <= names
    requires forall k | k in names :: k != "" && Trimmed(k)
    ensures RunTargets(RunOf(r).phases) == AimsOf(r) <= names
  {
    hide ActionCenter.TargetsOf, ActionOf, ActionTargets, Trimmed;
    var phases := r.draft.phases;
    forall p, a | p in RunOf(r).phases && a in p.actions ensures ActionTargets(a) <= AimsOf(r) {
      var i :| 0 <= i < |phases| && p == PhaseOf(phases[i]);
      var j :| 0 <= j < |phases[i].actions| && a == ActionOf(phases[i].actions[j]);
      assert phases[i] in phases && phases[i].actions[j] in phases[i].actions;
      ActionAimsExactly(phases[i].actions[j]);
    }
    forall p, a | p in phases && a in p.actions ensures ActionCenter.TargetsOf(a) <= RunTargets(RunOf(r).phases) {
      var i :| 0 <= i < |phases| && p == phases[i];
      var j :| 0 <= j < |p.actions| && a == p.actions[j];
      ActionAimsExactly(a);
      assert RunOf(r).phases[i] == PhaseOf(p) && PhaseOf(p).actions[j] == ActionOf(a);
      assert PhaseOf(p) in RunOf(r).phases && ActionOf(a) in PhaseOf(p).actions;
    }
  }

  /** The executor reads the type of a compiled action as it is, and its runtime flag from its parameters. */
  lemma ActionIsRead(a: ActionCenter.Action, kind: string, parameters: map<string, Value>)
    requires Get(a, "type") == Str(kind) && Get(a, "parameters") == Dict(parameters)
    ensures ActionOf(a).kind == kind
    ensures ActionOf(a).runtimeCheck.Some? <==> "check_container_runtime" in parameters
    ensures ActionOf(a).runtimeCheck == Some(true) <==>
      "check_container_runtime" in parameters && parameters["check_container_runtime"].Truthy()
  {
  }

  /** The connectivity prechecks of a compiled run look at exactly the nodes its actions are aimed at, or at the whole
      inventory when they are aimed at none: no target is dropped for lack of an inventory entry. */
  lemma PrechecksCoverTheTargets(x: Compiler.Input, vms: VmTable, r: Compiler.Run)
    requires Compiler.Compiled(x).Ok? && r in Compiler.Compiled(x).value && ErrorsOf(x.ctx.nodes, vms) == []
    requires forall v | v in VmNames(x.ctx.nodes) :: Verbatim(x.ctx.nodes, v)
    ensures var keys := InventoryOf(x.ctx.nodes, vms).Keys;
            PrecheckTargets(RunOf(r).phases, keys) == SortedNames(if AimsOf(r) != {} then AimsOf(r) else keys)
  {
    hide Compiler.Compiled, RunTargets, HubVm, Usable, InventoryOf, ErrorsOf, VmNames, Verbatim, AimsOf;
    var keys := InventoryOf(x.ctx.nodes, vms).Keys;
    PlanGrid.PlanTargetsExist(x);
    VmNamesAreTrimmed(x.ctx.nodes);
    RunAimsExactly(r, VmNames(x.ctx.nodes));
    CoverageExactly(x.ctx.nodes, vms);
    assert AimsOf(r) * keys == AimsOf(r);
  }
}
