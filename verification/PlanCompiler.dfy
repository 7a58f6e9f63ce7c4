/** Compiling an experiment: one run per selected edge and kept variant, each with rendered, normalised
    and resolved actions. */
module PlanCompiler {
  import opened Values
  import opened Sequences
  import opened Templates
  import opened Targeting
  import opened ActionCenter
  import opened Variants
  import opened PhaseSpecs
  import opened RunIds

  datatype Phase = Phase(name: string, mode: string, template: string, actions: seq<Action>)

  /** A run before it is numbered. `edge` is None for an experiment without edges. */
  datatype Draft = Draft(index: nat, runtime: string, variant: Assignment, edge: Option<Edge>, phases: seq<Phase>)

  datatype Run = Run(id: string, draft: Draft)

  /** What the compiler works with at every step: the scenario nodes, the catalog, and the runtime
      environment chosen for a variant. */
  datatype Context = Context(nodes: seq<Node>, cat: Catalog, runtimeOf: Assignment -> string)

  /** The exploration of an experiment: its axes, under `axes` or written directly, and its filters. */
  datatype Explored = Explored(axes: Field<RawAxes>, included: Field<seq<Value>>, excluded: Field<seq<Value>>)

  /** An experiment and a scenario; `execution` says whether the retired `runs` field is used. */
  datatype Input = Input(name: string, maxRuns: Option<int>, experimentIsObject: bool, scenarioIsObject: bool,
      execution: Field<bool>, exploration: Field<Explored>, selections: Field<RawAxes>,
      phases: Field<Entries<RawPhase>>, groups: Field<Entries<EdgeGroup>>, legacyPhases: bool, scenarioPhases: bool,
      templates: Field<Entries<RawTemplate>>, graph: RawGraph, fallback: nat -> string, ctx: Context)

  // ---------------------------------------------------------------- axes

  /** A value that is no list is a list of one. */
  function AxisValues(v: Value): seq<Value> {
    if v.List? then v.items else [v]
  }

  /** `_normalize_axis_map`, continuing from the axes already read: the last entry of a name wins. */
  function AxesFrom(known: Axes, raw: RawAxes): Result<Axes, CompileError>
    decreases |raw|
  {
    if raw == [] then Ok(known)
    else if Trim(raw[0].0) == "" then Err(EmptyAxisName)
    else if AxisValues(raw[0].1) == [] then Err(EmptyAxisValues)
    else AxesFrom(known[Trim(raw[0].0) := AxisValues(raw[0].1)], raw[1..])
  }

  /** The selections added to the axes already known: blank and known names are skipped. */
  function SelectionsFrom(known: Axes, raw: RawAxes): Result<Axes, CompileError>
    decreases |raw|
  {
    if raw == [] then Ok(known)
    else if Trim(raw[0].0) == "" || Trim(raw[0].0) in known then SelectionsFrom(known, raw[1..])
    else if AxisValues(raw[0].1) == [] then Err(EmptyAxisValues)
    else SelectionsFrom(known[Trim(raw[0].0) := AxisValues(raw[0].1)], raw[1..])
  }

  function EntriesOf(raw: Field<RawAxes>): RawAxes {
    if raw.Given? then raw.value else []
  }

  function ExploredAxes(exploration: Field<Explored>): Result<RawAxes, CompileError> {
    if exploration.Wrong? || (exploration.Given? && exploration.value.axes.Wrong?) then Err(WrongKind)
    else Ok(if exploration.Given? then EntriesOf(exploration.value.axes) else [])
  }

  /** What `_collect_axes` returns as axes. */
  function GlobalAxes(exploration: Field<Explored>, selections: Field<RawAxes>): Result<Axes, CompileError> {
    var raw := ExploredAxes(exploration);
    if raw.Err? then Err(raw.error)
    else
      var explored := AxesFrom(map[], raw.value);
      if explored.Err? then explored
      else if selections.Wrong? then Err(WrongKind)
      else SelectionsFrom(explored.value, EntriesOf(selections))
  }

  method NormalizeAxisMap(raw: RawAxes) returns (r: Result<Axes, CompileError>)
    ensures r == AxesFrom(map[], raw)
  {
    var normalized: Axes := map[];
    assert raw[0..] == raw;
    for i := 0 to |raw|
      invariant AxesFrom(normalized, raw[i..]) == AxesFrom(map[], raw)
    {
      assert raw[i..][1..] == raw[i + 1..];
      var axis, values := Trim(raw[i].0), AxisValues(raw[i].1);
      if axis == "" { return Err(EmptyAxisName); }
      if values == [] { return Err(EmptyAxisValues); }
      normalized := normalized[axis := values];
    }
    r := Ok(normalized);
  }

  method CollectAxes(exploration: Field<Explored>, selections: Field<RawAxes>) returns (r: Result<Axes, CompileError>)
    ensures r == GlobalAxes(exploration, selections)
  {
    if exploration.Wrong? { return Err(WrongKind); }
    var rawAxes: RawAxes := [];
    if exploration.Given? {
      if exploration.value.axes.Wrong? { return Err(WrongKind); }
      rawAxes := EntriesOf(exploration.value.axes);
    }
    var explored := NormalizeAxisMap(rawAxes);
    if explored.Err? { return explored; }
    var axes := explored.value;
    if selections.Wrong? { return Err(WrongKind); }
    var raw := EntriesOf(selections);
    assert raw[0..] == raw;
    for i := 0 to |raw|
      invariant SelectionsFrom(axes, raw[i..]) == SelectionsFrom(explored.value, raw)
    {
      assert raw[i..][1..] == raw[i + 1..];
      var axis, values := Trim(raw[i].0), AxisValues(raw[i].1);
      if axis == "" || axis in axes { continue; }
      if values == [] { return Err(EmptyAxisValues); }
      axes := axes[axis := values];
    }
    r := Ok(axes);
  }

  type EdgeAxes = map<string, Axes>

  function AssignAxes(known: EdgeAxes, refs: seq<string>, axes: Axes): Result<EdgeAxes, CompileError>
    decreases |refs|
  {
    if refs == [] then Ok(known)
    else if refs[0] == "" then Err(EdgeRefBlank)
    else if refs[0] in known && known[refs[0]] != axes then Err(ConflictingEdgeAxes)
    else AssignAxes(known[refs[0] := axes], refs[1..], axes)
  }

  /** The axes that an exploration block gives to its edges. */
  function OwnAxes(exploration: Exploration): Result<Axes, CompileError> {
    if exploration.hasFilters then Err(GroupFilterUnsupported)
    else if exploration.axes.Wrong? then Err(WrongKind)
    else AxesFrom(map[], EntriesOf(exploration.axes))
  }

  function GroupAxes(known: EdgeAxes, g: Option<EdgeGroup>): Result<EdgeAxes, CompileError> {
    var refs := GroupRefs(g);
    if refs.Err? then Err(refs.error)
    else match g.value.exploration
      case Absent => Ok(known)
      case Wrong => Err(WrongKind)
      case Given(exploration) =>
        var axes := OwnAxes(exploration);
        if axes.Err? then Err(axes.error) else AssignAxes(known, refs.value, axes.value)
  }

  function GroupsAxes(known: EdgeAxes, groups: Entries<EdgeGroup>): Result<EdgeAxes, CompileError>
    decreases |groups|
  {
    if groups == [] then Ok(known)
    else
      var first := GroupAxes(known, groups[0]);
      if first.Err? then first else GroupsAxes(first.value, groups[1..])
  }

  /** What `_extract_exec_edge_axes_by_edge` returns. */
  function AxesByEdge(groups: Field<Entries<EdgeGroup>>): Result<EdgeAxes, CompileError> {
    match groups
    case Absent => Ok(map[])
    case Wrong => Err(WrongKind)
    case Given(items) => GroupsAxes(map[], items)
  }

  method ExtractEdgeAxes(groups: Field<Entries<EdgeGroup>>) returns (r: Result<EdgeAxes, CompileError>)
    ensures r == AxesByEdge(groups)
  {
    var byEdge: EdgeAxes := map[];
    if groups.Absent? { return Ok(byEdge); }
    if groups.Wrong? { return Err(WrongKind); }
    var items := groups.value;
    assert items[0..] == items;
    for i := 0 to |items|
      invariant GroupsAxes(byEdge, items[i..]) == GroupsAxes(map[], items)
    {
      assert items[i..][1..] == items[i + 1..];
      var next := AddGroupAxes(byEdge, items[i]);
      if next.Err? { return next; }
      byEdge := next.value;
    }
    r := Ok(byEdge);
  }

  method AddGroupAxes(known: EdgeAxes, group: Option<EdgeGroup>) returns (r: Result<EdgeAxes, CompileError>)
    ensures r == GroupAxes(known, group)
  {
    if group.None? { return Err(WrongKind); }
    var g := group.value;
    if g.edgeRefs.Absent? { return Err(EdgeRefsRequired); }
    if g.edgeRefs.Wrong? { return Err(WrongKind); }
    var refs := g.edgeRefs.value;
    if refs == [] { return Err(EdgeRefsEmpty); }
    if g.exploration.Absent? { return Ok(known); }
    if g.exploration.Wrong? { return Err(WrongKind); }
    var exploration := g.exploration.value;
    if exploration.hasFilters { return Err(GroupFilterUnsupported); }
    if exploration.axes.Wrong? { return Err(WrongKind); }
    var axes := NormalizeAxisMap(EntriesOf(exploration.axes));
    if axes.Err? { return Err(axes.error); }
    var byEdge := known;
    assert refs[0..] == refs;
    for j := 0 to |refs|
      invariant AssignAxes(byEdge, refs[j..], axes.value) == AssignAxes(known, refs, axes.value)
    {
      assert refs[j..][1..] == refs[j + 1..];
      if refs[j] == "" { return Err(EdgeRefBlank); }
      if refs[j] in byEdge && byEdge[refs[j]] != axes.value { return Err(ConflictingEdgeAxes); }
      byEdge := byEdge[refs[j] := axes.value];
    }
    r := Ok(byEdge);
  }

  // ---------------------------------------------------------------- selected edges

  /** The edge names that phases refer to. */
  function RefNames(specs: seq<PhaseSpec>): set<string> {
    set s, n | s in specs && s.edgeRefs.Some? && n in s.edgeRefs.value && n != "" :: n
  }

  function Chosen(named: seq<Edge>, names: set<string>): seq<Edge> {
    Filter(named, (e: Edge) => e.name in names)
  }

  function Somes(edges: seq<Edge>): seq<Option<Edge>> {
    seq(|edges|, i requires 0 <= i < |edges| => Some(edges[i]))
  }

  /** `_selected_run_edges`: no edge at all, or the referenced edges in graph order. */
  function SelectedEdges(specs: seq<PhaseSpec>, named: seq<Edge>,
      byName: set<string>): Result<seq<Option<Edge>>, CompileError> {
    var names := RefNames(specs);
    if names == {} then Ok([None])
    else if named == [] then Err(NoNamedEdges)
    else if exists n | n in names :: n !in byName then Err(UnknownSelectedEdge)
    else if Chosen(named, names) == [] then Err(NoMatchingEdge)
    else Ok(Somes(Chosen(named, names)))
  }

  lemma RefNamesStep(specs: seq<PhaseSpec>, i: nat)
    requires i < |specs|
    ensures forall n :: n in RefNames(specs[..i + 1]) <==>
      n in RefNames(specs[..i]) || (specs[i].edgeRefs.Some? && n in specs[i].edgeRefs.value && n != "")
  {
    assert specs[..i + 1] == specs[..i] + [specs[i]];
    assert forall s :: s in specs[..i + 1] <==> s in specs[..i] || s == specs[i];
  }

  method ReferencedNames(specs: seq<PhaseSpec>) returns (names: seq<string>)
    ensures forall n :: n in names <==> n in RefNames(specs)
  {
    names := [];
    for i := 0 to |specs|
      invariant forall n :: n in names <==> n in RefNames(specs[..i])
    {
      RefNamesStep(specs, i);
      if specs[i].edgeRefs.Some? {
        var refs := specs[i].edgeRefs.value;
        for j := 0 to |refs|
          invariant forall n :: n in names <==> n in RefNames(specs[..i]) || (n in refs[..j] && n != "")
        {
          if refs[j] != "" && refs[j] !in names { names := names + [refs[j]]; }
        }
        assert refs[..|refs|] == refs;
      }
    }
    assert specs[..|specs|] == specs;
  }

  method SelectRunEdges(specs: seq<PhaseSpec>, named: seq<Edge>, byName: set<string>)
    returns (r: Result<seq<Option<Edge>>, CompileError>)
    ensures r == SelectedEdges(specs, named, byName)
  {
    var names := ReferencedNames(specs);
    assert names == [] <==> RefNames(specs) == {} by { assert names == [] || names[0] in RefNames(specs); }
    if names == [] { return Ok([None]); }
    if named == [] { return Err(NoNamedEdges); }
    var selected: seq<Edge> := [];
    for i := 0 to |named|
      invariant selected == Chosen(named[..i], RefNames(specs))
    {
      assert named[..i + 1] == named[..i] + [named[i]];
      FilterAppend(named[..i], [named[i]], (e: Edge) => e.name in RefNames(specs));
      if named[i].name in names { selected := selected + [named[i]]; }
    }
    assert named[..|named|] == named;
    if exists n | n in names :: n !in byName { return Err(UnknownSelectedEdge); }
    if selected == [] { return Err(NoMatchingEdge); }
    r := Ok(Somes(selected));
  }

  // ---------------------------------------------------------------- materialising phases

  function ScopesOf(variant: Assignment, edge: Option<Edge>): Scopes {
    Scopes(variant, if edge.Some? then Some(edge.value.values) else None)
  }

  /** One action of a phase: rendered, normalised, and its targets resolved once more. */
  function ActionResult(action: Value, ctx: Context, scopes: Scopes): Result<seq<Action>, CompileError> {
    var rendered := Render(action, scopes, ctx.cat.show);
    if rendered.Err? then Err(RenderFailed(rendered.error))
    else if !rendered.value.Dict? then Err(RenderedNotObject)
    else
      var normal := Normalized(rendered.value.m, ctx.nodes, ctx.cat);
      if normal.Err? then Err(ActionRejected(normal.error))
      else if normal.value == [] then Err(EmptyActionPayload)
      else Collect(normal.value, Retarget(ctx))
  }

  function Retarget(ctx: Context): Action -> Result<seq<Action>, CompileError> {
    (a: Action) =>
      var r := Targeted(a, ctx.nodes, ctx.cat.show);
      if r.Ok? then Ok(r.value) else Err(InvalidTarget(r.error))
  }

  function ActionStep(ctx: Context, scopes: Scopes): Value -> Result<seq<Action>, CompileError> {
    (a: Value) => ActionResult(a, ctx, scopes)
  }

  /** The phase belongs to a run over this edge. */
  predicate Applies(spec: PhaseSpec, edge: Option<Edge>) {
    spec.edgeRefs.Some? && spec.edgeRefs.value != [] ==>
      edge.Some? && edge.value.name != "" && edge.value.name in spec.edgeRefs.value
  }

  function PhaseResult(spec: PhaseSpec, ctx: Context, variant: Assignment,
      edge: Option<Edge>): Result<seq<Phase>, CompileError> {
    if !Applies(spec, edge) then Ok([])
    else
      var actions := Collect(spec.actions, ActionStep(ctx, ScopesOf(variant, edge)));
      if actions.Err? then Err(actions.error)
      else if actions.value == [] then Err(EmptyActionList)
      else Ok([Phase(spec.name, spec.mode, spec.template, actions.value)])
  }

  function PhaseStep(ctx: Context, variant: Assignment,
      edge: Option<Edge>): PhaseSpec -> Result<seq<Phase>, CompileError> {
    (s: PhaseSpec) => PhaseResult(s, ctx, variant, edge)
  }

  /** `_materialize_phases`. */
  function Materialized(specs: seq<PhaseSpec>, ctx: Context, variant: Assignment,
      edge: Option<Edge>): Result<seq<Phase>, CompileError> {
    Collect(specs, PhaseStep(ctx, variant, edge))
  }

  method MaterializeActions(actions: seq<Value>, ctx: Context, scopes: Scopes)
    returns (r: Result<seq<Action>, CompileError>)
    ensures r == Collect(actions, ActionStep(ctx, scopes))
  {
    var rendered: seq<Action> := [];
    CollectStart(actions, ActionStep(ctx, scopes));
    for i := 0 to |actions|
      invariant After(rendered, Collect(actions[i..], ActionStep(ctx, scopes)))
          == Collect(actions, ActionStep(ctx, scopes))
    {
      CollectStep(actions, ActionStep(ctx, scopes), i, rendered);
      var value := Render(actions[i], scopes, ctx.cat.show);
      if value.Err? { return Err(RenderFailed(value.error)); }
      if !value.value.Dict? { return Err(RenderedNotObject); }
      var normal := NormalizeActionPayload(value.value.m, ctx.nodes, ctx.cat);
      if normal.Err? { return Err(ActionRejected(normal.error)); }
      if normal.value == [] { return Err(EmptyActionPayload); }
      var expanded := RetargetAll(normal.value, ctx);
      if expanded.Err? { return expanded; }
      rendered := rendered + expanded.value;
    }
    CollectEnd(actions, ActionStep(ctx, scopes), rendered);
    r := Ok(rendered);
  }

  method RetargetAll(actions: seq<Action>, ctx: Context) returns (r: Result<seq<Action>, CompileError>)
    ensures r == Collect(actions, Retarget(ctx))
  {
    var expanded: seq<Action> := [];
    CollectStart(actions, Retarget(ctx));
    for i := 0 to |actions|
      invariant After(expanded, Collect(actions[i..], Retarget(ctx))) == Collect(actions, Retarget(ctx))
    {
      CollectStep(actions, Retarget(ctx), i, expanded);
      var one := NormalizeActionTargets(actions[i], ctx.nodes, ctx.cat.show);
      if one.Err? { return Err(InvalidTarget(one.error)); }
      expanded := expanded + one.value;
    }
    CollectEnd(actions, Retarget(ctx), expanded);
    r := Ok(expanded);
  }

  method MaterializePhases(specs: seq<PhaseSpec>, ctx: Context, variant: Assignment, edge: Option<Edge>)
    returns (r: Result<seq<Phase>, CompileError>)
    ensures r == Materialized(specs, ctx, variant, edge)
  {
    var phases: seq<Phase> := [];
    CollectStart(specs, PhaseStep(ctx, variant, edge));
    for i := 0 to |specs|
      invariant After(phases, Collect(specs[i..], PhaseStep(ctx, variant, edge)))
          == Materialized(specs, ctx, variant, edge)
    {
      CollectStep(specs, PhaseStep(ctx, variant, edge), i, phases);
      var spec := specs[i];
      if !Applies(spec, edge) {
        assert phases + [] == phases;
        continue;
      }
      var actions := MaterializeActions(spec.actions, ctx, ScopesOf(variant, edge));
      if actions.Err? { return Err(actions.error); }
      if actions.value == [] { return Err(EmptyActionList); }
      phases := phases + [Phase(spec.name, spec.mode, spec.template, actions.value)];
    }
    CollectEnd(specs, PhaseStep(ctx, variant, edge), phases);
    r := Ok(phases);
  }

  // ---------------------------------------------------------------- the plan

  /** The axes of a run over this edge: its own axes override the global ones. */
  function AxesFor(axes: Axes, byEdge: EdgeAxes, edge: Option<Edge>): Axes {
    if edge.Some? && edge.value.name in byEdge then axes + byEdge[edge.value.name] else axes
  }

  function DraftResult(n: nat, variant: Assignment, specs: seq<PhaseSpec>, ctx: Context, edge: Option<Edge>)
    : Result<seq<Draft>, CompileError>
  {
    var phases := Materialized(specs, ctx, variant, edge);
    if phases.Err? then Err(phases.error)
    else if phases.value == [] then Err(NoPhases)
    else Ok([Draft(n + 1, ctx.runtimeOf(variant), variant, edge, phases.value)])
  }

  function DraftStep(specs: seq<PhaseSpec>, ctx: Context,
      edge: Option<Edge>): ((nat, Assignment)) -> Result<seq<Draft>, CompileError> {
    (v: (nat, Assignment)) => DraftResult(v.0, v.1, specs, ctx, edge)
  }

  /** Everything the two compile loops need. */
  datatype Job = Job(specs: seq<PhaseSpec>, axes: Axes, byEdge: EdgeAxes, included: Field<seq<Value>>,
      excluded: Field<seq<Value>>, ctx: Context)

  function FiltersOf(filters: Field<seq<Value>>): seq<Value> {
    if filters.Given? then filters.value else []
  }

  function VariantsFor(job: Job, edge: Option<Edge>): seq<Assignment> {
    Expanded(AxesFor(job.axes, job.byEdge, edge), FiltersOf(job.included), FiltersOf(job.excluded))
  }

  function EdgeResult(job: Job, edge: Option<Edge>): Result<seq<Draft>, CompileError> {
    var variants := VariantsFor(job, edge);
    if job.included.Wrong? || job.excluded.Wrong? then Err(WrongKind)
    else if variants == [] then Err(NoVariant)
    else Collect(Numbered(variants), DraftStep(job.specs, job.ctx, edge))
  }

  function EdgeStep(job: Job): Option<Edge> -> Result<seq<Draft>, CompileError> {
    (e: Option<Edge>) => EdgeResult(job, e)
  }

  function WithIds(drafts: seq<Draft>): seq<Run> {
    seq(|drafts|, i requires 0 <= i < |drafts| => Run(RunId(i + 1), drafts[i]))
  }

  /** The checks of the input's own shape. */
  function Refused(x: Input): Option<CompileError> {
    if x.name == "" then Some(NameRequired)
    else if x.maxRuns.Some? && x.maxRuns.value <= 0 then Some(MaxRunsNotPositive)
    else if !x.experimentIsObject || !x.scenarioIsObject || x.execution.Wrong? then Some(WrongKind)
    else if x.execution.Given? && x.execution.value then Some(RunsUnsupported)
    else None
  }

  /** The checks before the compile loops, in the code's order. */
  function Prepared(x: Input): Result<(Job, seq<Option<Edge>>), CompileError> {
    if Refused(x).Some? then Err(Refused(x).value)
    else
      var axes := GlobalAxes(x.exploration, x.selections);
      var templates := PhaseTemplates(x.scenarioPhases, x.templates);
      var named := NamedEdges(x.graph, NodeNames(x.ctx.nodes));
      var entries := PhaseEntries(x.phases, x.groups, x.legacyPhases);
      if axes.Err? then Err(axes.error)
      else if templates.Err? then Err(templates.error)
      else if templates.value == map[] then Err(NoTemplates)
      else if named.Err? then Err(named.error)
      else if entries.Err? then Err(entries.error)
      else
        var names := set e | e in named.value :: e.name;
        var specs := Specs(entries.value, templates.value, names, x.fallback);
        if specs.Err? then Err(specs.error)
        else
          var edges, byEdge := SelectedEdges(specs.value, named.value, names), AxesByEdge(x.groups);
          if edges.Err? then Err(edges.error)
          else if byEdge.Err? then Err(byEdge.error)
          else Ok((JobOf(x, specs.value, axes.value, byEdge.value), edges.value))
  }

  function JobOf(x: Input, specs: seq<PhaseSpec>, axes: Axes, byEdge: EdgeAxes): Job {
    Job(specs, axes, byEdge, if x.exploration.Given? then x.exploration.value.included else Absent,
        if x.exploration.Given? then x.exploration.value.excluded else Absent, x.ctx)
  }

  /** What `compile_experiment_plan` returns. */
  function Compiled(x: Input): Result<seq<Run>, CompileError> {
    var p := Prepared(x);
    if p.Err? then Err(p.error)
    else
      var drafts := Collect(p.value.1, EdgeStep(p.value.0));
      if drafts.Err? then Err(drafts.error)
      else if |drafts.value| < 1 then Err(RunCountBelowOne)
      else if x.maxRuns.Some? && |drafts.value| > x.maxRuns.value then Err(TooManyRuns)
      else Ok(WithIds(drafts.value))
  }

  method Prepare(x: Input) returns (r: Result<(Job, seq<Option<Edge>>), CompileError>)
    ensures r == Prepared(x)
  {
    hide GlobalAxes, PhaseTemplates, NamedEdges, PhaseEntries, Specs, SelectedEdges, AxesByEdge, NodeNames;
    if x.name == "" { return Err(NameRequired); }
    if x.maxRuns.Some? && x.maxRuns.value <= 0 { return Err(MaxRunsNotPositive); }
    if !x.experimentIsObject { return Err(WrongKind); }
    if !x.scenarioIsObject { return Err(WrongKind); }
    if x.execution.Wrong? { return Err(WrongKind); }
    if x.execution.Given? && x.execution.value { return Err(RunsUnsupported); }
    var axes := CollectAxes(x.exploration, x.selections);
    if axes.Err? { return Err(axes.error); }
    var templates := ExtractPhaseTemplates(x.scenarioPhases, x.templates);
    if templates.Err? { return Err(templates.error); }
    if templates.value == map[] { return Err(NoTemplates); }
    var named, byName := ExtractNamedEdges(x.graph, NodeNames(x.ctx.nodes));
    if named.Err? { return Err(named.error); }
    var entries := ExtractPhaseEntries(x.phases, x.groups, x.legacyPhases);
    if entries.Err? { return Err(entries.error); }
    var specs := ExtractPhaseSpecs(entries.value, templates.value, byName.Keys, x.fallback);
    if specs.Err? { return Err(specs.error); }
    var edges := SelectRunEdges(specs.value, named.value, byName.Keys);
    if edges.Err? { return Err(edges.error); }
    var byEdge := ExtractEdgeAxes(x.groups);
    if byEdge.Err? { return Err(byEdge.error); }
    r := Ok((JobOf(x, specs.value, axes.value, byEdge.value), edges.value));
  }

  lemma WithIdsSize(drafts: seq<Draft>)
    ensures |WithIds(drafts)| == |drafts|
  {
  }

  lemma WithIdsAppend(drafts: seq<Draft>, draft: Draft)
    ensures WithIds(drafts + [draft]) == WithIds(drafts) + [Run(RunId(|drafts| + 1), draft)]
  {
  }

  /** The drafts of one edge, appended to the runs so far under consecutive identifiers. */
  method AppendEdgeRuns(job: Job, edge: Option<Edge>, runs: seq<Run>, ghost done: seq<Draft>, sequence: nat)
    returns (r: Result<seq<Run>, CompileError>, next: nat)
    requires runs == WithIds(done) && sequence == |runs| + 1
    ensures r == var e := EdgeResult(job, edge); if e.Err? then Err(e.error) else Ok(WithIds(done + e.value))
    ensures r.Ok? ==> next == |r.value| + 1
  {
    hide RunId, Materialized, VariantsFor, WithIds;
    WithIdsSize(done);
    next := sequence;
    if job.included.Wrong? || job.excluded.Wrong? { return Err(WrongKind), next; }
    var variants := VariantsFor(job, edge);
    if variants == [] { return Err(NoVariant), next; }
    var all := runs;
    ghost var items, step, drafts := Numbered(variants), DraftStep(job.specs, job.ctx, edge), [];
    CollectStart(items, step);
    assert done + [] == done;
    for i := 0 to |variants|
      invariant After(drafts, Collect(items[i..], step)) == Collect(items, step)
      invariant all == WithIds(done + drafts) && next == |all| + 1 == |done + drafts| + 1
    {
      CollectStep(items, step, i, drafts);
      var phases := MaterializePhases(job.specs, job.ctx, variants[i], edge);
      if phases.Err? { return Err(phases.error), next; }
      if phases.value == [] { return Err(NoPhases), next; }
      var draft := Draft(i + 1, job.ctx.runtimeOf(variants[i]), variants[i], edge, phases.value);
      assert done + (drafts + [draft]) == done + drafts + [draft];
      WithIdsAppend(done + drafts, draft);
      all := all + [Run(RunId(next), draft)];
      drafts := drafts + [draft];
      next := next + 1;
    }
    CollectEnd(items, step, drafts);
    r := Ok(all);
  }

  method CompileExperimentPlan(x: Input) returns (r: Result<seq<Run>, CompileError>)
    ensures r == Compiled(x)
  {
    var p := Prepare(x);
    if p.Err? { return Err(p.error); }
    var (job, edges) := p.value;
    var runs: seq<Run> := [];
    var sequence := 1;
    ghost var drafts: seq<Draft> := [];
    CollectStart(edges, EdgeStep(job));
    for i := 0 to |edges|
      invariant After(drafts, Collect(edges[i..], EdgeStep(job))) == Collect(edges, EdgeStep(job))
      invariant runs == WithIds(drafts) && sequence == |runs| + 1
    {
      CollectStep(edges, EdgeStep(job), i, drafts);
      var more, next := AppendEdgeRuns(job, edges[i], runs, drafts, sequence);
      if more.Err? { return Err(more.error); }
      drafts := drafts + EdgeResult(job, edges[i]).value;
      runs, sequence := more.value, next;
    }
    CollectEnd(edges, EdgeStep(job), drafts);
    if |runs| < 1 { return Err(RunCountBelowOne); }
    if x.maxRuns.Some? && |runs| > x.maxRuns.value { return Err(TooManyRuns); }
    r := Ok(runs);
  }
}
