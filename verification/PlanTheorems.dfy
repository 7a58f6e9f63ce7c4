/** What the compiler guarantees as a whole: which errors cannot happen any more once the early checks have
    passed, exactly which runs a plan consists of, and where its actions are aimed. */
module PlanTheorems {
  import opened Values
  import opened Sequences
  import opened Templates
  import opened Targeting
  import opened ActionCenter
  import opened Variants
  import opened PhaseSpecs
  import opened PlanCompiler

  /** The errors raised after the phases have been extracted that the early checks are meant to rule out; the
      second resolution of targets is one of them when every VM name is self-reading. */
  ghost predicate Late(e: CompileError, nodes: seq<Node>) {
    || e.NoNamedEdges? || e.UnknownSelectedEdge? || e.NoMatchingEdge? || e.RenderedNotObject? || e.EmptyActionPayload?
    || e.EmptyActionList? || e.NoPhases? || e.RunCountBelowOne?
    || (e.RenderFailed? && exists f | f in e.faults :: f.NoEdgeContext?)
    || (e.InvalidTarget? && forall n | n in VmNames(nodes) :: SelfReading(n, nodes))
  }

  /** The errors of the checks that come before any run is built. */
  predicate Early(e: CompileError) {
    !e.NoNamedEdges? && !e.UnknownSelectedEdge? && !e.NoMatchingEdge? && !e.RenderedNotObject? && !e.EmptyActionPayload?
    && !e.EmptyActionList? && !e.NoPhases? && !e.RunCountBelowOne? && !e.RenderFailed? && !e.InvalidTarget?
  }

  /** What extraction and edge selection establish together. */
  ghost predicate Consistent(specs: seq<PhaseSpec>, named: seq<Edge>, names: set<string>) {
    && specs != [] && (forall s | s in specs :: PassesChecks(s, names))
    && names == (set e | e in named :: e.name)
  }

  /** A run over this edge has at least one phase. */
  ghost predicate HasPhase(specs: seq<PhaseSpec>, edge: Option<Edge>) {
    exists s | s in specs :: Applies(s, edge)
  }

  lemma SelectionSucceeds(specs: seq<PhaseSpec>, named: seq<Edge>, names: set<string>)
    requires Consistent(specs, named, names)
    ensures SelectedEdges(specs, named, names).Ok?
    ensures SelectedEdges(specs, named, names).value != []
    ensures forall e | e in SelectedEdges(specs, named, names).value :: HasPhase(specs, e)
  {
    hide HasPhase, PassesChecks, RefNames;
    var refs := RefNames(specs);
    if refs == {} {
      UnboundPhasesApply(specs, names);
    } else {
      var n :| n in refs;
      RefNamesAreNamed(specs, names);
      var edge :| edge in named && edge.name == n;
      assert edge in Chosen(named, refs);
      forall e | e in Somes(Chosen(named, refs)) ensures HasPhase(specs, e) {
        var c :| c in Chosen(named, refs) && e == Some(c);
        ReferencedEdgeHasPhase(specs, c);
      }
    }
  }

  lemma RefNamesAreNamed(specs: seq<PhaseSpec>, names: set<string>)
    requires forall s | s in specs :: PassesChecks(s, names)
    ensures RefNames(specs) <= names
  {
  }

  lemma BoundPhaseIsReferenced(specs: seq<PhaseSpec>, names: set<string>)
    requires specs != [] && PassesChecks(specs[0], names) && specs[0].edgeRefs.Some?
    ensures RefNames(specs) != {}
  {
    var s := specs[0];
    assert s in specs && s.edgeRefs.value[0] in s.edgeRefs.value;
    assert s.edgeRefs.value[0] in RefNames(specs);
  }

  lemma UnboundPhasesApply(specs: seq<PhaseSpec>, names: set<string>)
    requires specs != [] && RefNames(specs) == {} && PassesChecks(specs[0], names)
    ensures HasPhase(specs, None)
  {
    hide RefNames, PassesChecks;
    if specs[0].edgeRefs.Some? { BoundPhaseIsReferenced(specs, names); }
    assert Applies(specs[0], None);
  }

  lemma ReferencedEdgeHasPhase(specs: seq<PhaseSpec>, edge: Edge)
    requires edge.name in RefNames(specs)
    ensures HasPhase(specs, Some(edge))
  {
    var s :| s in specs && s.edgeRefs.Some? && edge.name in s.edgeRefs.value && edge.name != "";
    assert Applies(s, Some(edge));
  }

  lemma {:induction false} CollectUnits<T>(items: seq<T>, f: T -> Result<seq<T>, CompileError>)
    requires forall x | x in items :: f(x) == Ok([x])
    ensures Collect(items, f) == Ok(items)
  {
    if items != [] {
      CollectUnits(items[1..], f);
      assert [items[0]] + items[1..] == items;
    }
  }

  /** The targets of normalised actions are not resolved a second time in effect: when the names listed in them
      are self-reading, the compiled actions are the normalised ones. */
  lemma CompiledActionsAreNormalized(raw: Action, ctx: Context)
    requires Normalized(raw, ctx.nodes, ctx.cat).Ok?
    requires forall a | a in Normalized(raw, ctx.nodes, ctx.cat).value :: forall n | n in Listed(a) :: SelfReading(n, ctx.nodes)
    ensures Collect(Normalized(raw, ctx.nodes, ctx.cat).value, Retarget(ctx))
        == Ok(Normalized(raw, ctx.nodes, ctx.cat).value)
  {
    hide Normalized, Targeted, VmNames, SelfReading, Listed;
    SecondPassIsIdentity(raw, ctx.nodes, ctx.cat);
    CollectUnits(Normalized(raw, ctx.nodes, ctx.cat).value, Retarget(ctx));
  }

  lemma RetargetIsNotLate(raw: Action, ctx: Context)
    requires Normalized(raw, ctx.nodes, ctx.cat).Ok?
    ensures Normalized(raw, ctx.nodes, ctx.cat).value != []
    ensures var r := Collect(Normalized(raw, ctx.nodes, ctx.cat).value, Retarget(ctx));
            if r.Ok? then r.value != [] else !Late(r.error, ctx.nodes)
  {
    hide Normalized, Targeted, VmNames, SelfReading, Listed, Canonical;
    NormalizedIsCanonical(raw, ctx.nodes, ctx.cat);
    var normal := Normalized(raw, ctx.nodes, ctx.cat).value;
    if forall n | n in VmNames(ctx.nodes) :: SelfReading(n, ctx.nodes) {
      forall a | a in normal ensures forall n | n in Listed(a) :: SelfReading(n, ctx.nodes) {
        ListedAreVmNames(a, ctx.nodes);
      }
      CompiledActionsAreNormalized(raw, ctx);
    }
    CollectError(normal, Retarget(ctx));
    if Collect(normal, Retarget(ctx)).Ok? {
      CollectMember(normal, Retarget(ctx));
      assert normal[0] in normal && Retarget(ctx)(normal[0]).value[0] in Collect(normal, Retarget(ctx)).value;
    }
  }

  lemma ActionIsNotLate(action: Value, ctx: Context, variant: Assignment, edge: Option<Edge>)
    requires action.Dict? && (ContainsEdge(action) ==> edge.Some?)
    ensures var r := ActionResult(action, ctx, ScopesOf(variant, edge));
            if r.Ok? then r.value != [] else !Late(r.error, ctx.nodes)
  {
    hide Normalized, Collect, ContainsEdge, VmNames, SelfReading;
    var scopes := ScopesOf(variant, edge);
    CheckedDocumentHasEdgeContext(action, scopes, ctx.cat.show);
    var rendered := Render(action, scopes, ctx.cat.show);
    if rendered.Ok? && Normalized(rendered.value.m, ctx.nodes, ctx.cat).Ok? { RetargetIsNotLate(rendered.value.m, ctx); }
  }

  lemma PhaseIsNotLate(spec: PhaseSpec, names: set<string>, ctx: Context, variant: Assignment, edge: Option<Edge>)
    requires PassesChecks(spec, names)
    ensures var r := PhaseResult(spec, ctx, variant, edge);
            if r.Ok? then (r.value != [] <==> Applies(spec, edge)) else !Late(r.error, ctx.nodes)
  {
    hide ActionResult, ContainsEdge;
    var step := ActionStep(ctx, ScopesOf(variant, edge));
    if Applies(spec, edge) {
      forall a | a in spec.actions
        ensures if step(a).Ok? then step(a).value != [] else !Late(step(a).error, ctx.nodes)
      {
        ActionIsNotLate(a, ctx, variant, edge);
      }
      CollectError(spec.actions, step);
      if Collect(spec.actions, step).Ok? {
        CollectMember(spec.actions, step);
        assert spec.actions[0] in spec.actions && step(spec.actions[0]).value[0] in Collect(spec.actions, step).value;
      }
    }
  }

  lemma EdgeIsNotLate(job: Job, names: set<string>, edge: Option<Edge>)
    requires (forall s | s in job.specs :: PassesChecks(s, names)) && HasPhase(job.specs, edge)
    ensures var r := EdgeResult(job, edge); if r.Ok? then r.value != [] else !Late(r.error, job.ctx.nodes)
  {
    hide PassesChecks, Applies, VariantsFor;
    var items, step := Numbered(VariantsFor(job, edge)), DraftStep(job.specs, job.ctx, edge);
    forall v | v in items ensures if step(v).Ok? then step(v).value != [] else !Late(step(v).error, job.ctx.nodes) {
      DraftIsNotLate(v.0, v.1, job.specs, names, job.ctx, edge);
    }
    CollectError(items, step);
    if items != [] && Collect(items, step).Ok? {
      CollectMember(items, step);
      assert items[0] in items && step(items[0]).value[0] in Collect(items, step).value;
    }
  }

  lemma DraftIsNotLate(n: nat, variant: Assignment, specs: seq<PhaseSpec>, names: set<string>, ctx: Context,
      edge: Option<Edge>)
    requires (forall s | s in specs :: PassesChecks(s, names)) && HasPhase(specs, edge)
    ensures var r := DraftResult(n, variant, specs, ctx, edge); if r.Ok? then r.value != [] else !Late(r.error, ctx.nodes)
  {
    hide PassesChecks, Applies, PhaseResult;
    var step := PhaseStep(ctx, variant, edge);
    forall s | s in specs
      ensures if step(s).Ok? then (step(s).value != [] <==> Applies(s, edge)) else !Late(step(s).error, ctx.nodes)
    {
      PhaseIsNotLate(s, names, ctx, variant, edge);
    }
    CollectError(specs, step);
    if Collect(specs, step).Ok? {
      CollectMember(specs, step);
      var s :| s in specs && Applies(s, edge);
      assert step(s).value[0] in Collect(specs, step).value;
    }
  }

  lemma SpecErrorIsEarly(raw: Option<RawPhase>, position: string, templates: map<string, Template>, names: set<string>)
    ensures SpecOf(raw, position, templates, names).Err? ==> Early(SpecOf(raw, position, templates, names).error)
  {
    hide ModeOr, WrittenMode, UsesEdge, Dedup;
  }

  lemma SpecErrorsAreEarly(entries: Entries<RawPhase>, templates: map<string, Template>, names: set<string>,
      fallback: nat -> string)
    ensures Specs(entries, templates, names, fallback).Err? ==> Early(Specs(entries, templates, names, fallback).error)
  {
    CollectError(Numbered(entries), SpecStep(templates, names, fallback));
    forall raw, position | SpecOf(raw, position, templates, names).Err?
      ensures Early(SpecOf(raw, position, templates, names).error)
    {
      SpecErrorIsEarly(raw, position, templates, names);
    }
    hide SpecOf, Early;
  }

  lemma {:induction false} TemplateErrorsAreEarly(known: map<string, Template>, raw: Entries<RawTemplate>)
    ensures TemplatesFrom(known, raw).Err? ==> Early(TemplatesFrom(known, raw).error)
    decreases |raw|
  {
    if raw != [] {
      var next := AddedTemplate(known, raw[0]);
      if next.Ok? { TemplateErrorsAreEarly(next.value, raw[1..]); }
    }
  }

  lemma {:induction false} EdgeErrorsAreEarly(edges: Entries<RawEdge>, nodes: set<string>)
    ensures EdgesFrom(edges, nodes).Err? ==> Early(EdgesFrom(edges, nodes).error)
  {
    if edges != [] { EdgeErrorsAreEarly(edges[..|edges| - 1], nodes); }
  }

  lemma {:induction false} AxisErrorsAreEarly(known: Axes, raw: RawAxes)
    ensures AxesFrom(known, raw).Err? ==> Early(AxesFrom(known, raw).error)
    ensures SelectionsFrom(known, raw).Err? ==> Early(SelectionsFrom(known, raw).error)
    decreases |raw|
  {
    if raw != [] {
      var axis, values := Trim(raw[0].0), AxisValues(raw[0].1);
      AxisErrorsAreEarly(known[axis := values], raw[1..]);
      AxisErrorsAreEarly(known, raw[1..]);
    }
  }

  lemma GlobalAxisErrorsAreEarly(exploration: Field<Explored>, selections: Field<RawAxes>)
    ensures GlobalAxes(exploration, selections).Err? ==> Early(GlobalAxes(exploration, selections).error)
  {
    var raw := ExploredAxes(exploration);
    if raw.Ok? {
      AxisErrorsAreEarly(map[], raw.value);
      if AxesFrom(map[], raw.value).Ok? { AxisErrorsAreEarly(AxesFrom(map[], raw.value).value, EntriesOf(selections)); }
    }
  }

  lemma {:induction false} AssignErrorsAreEarly(known: EdgeAxes, refs: seq<string>, axes: Axes)
    ensures AssignAxes(known, refs, axes).Err? ==> Early(AssignAxes(known, refs, axes).error)
    decreases |refs|
  {
    if refs != [] { AssignErrorsAreEarly(known[refs[0] := axes], refs[1..], axes); }
  }

  lemma GroupErrorIsEarly(known: EdgeAxes, g: Option<EdgeGroup>)
    ensures GroupAxes(known, g).Err? ==> Early(GroupAxes(known, g).error)
  {
    if g.Some? && g.value.exploration.Given? {
      var exploration := g.value.exploration.value;
      AxisErrorsAreEarly(map[], EntriesOf(exploration.axes));
      if GroupRefs(g).Ok? && OwnAxes(exploration).Ok? {
        AssignErrorsAreEarly(known, GroupRefs(g).value, OwnAxes(exploration).value);
      }
    }
  }

  lemma {:induction false} GroupErrorsAreEarly(known: EdgeAxes, groups: Entries<EdgeGroup>)
    ensures GroupsAxes(known, groups).Err? ==> Early(GroupsAxes(known, groups).error)
    decreases |groups|
  {
    if groups != [] {
      GroupErrorIsEarly(known, groups[0]);
      if GroupAxes(known, groups[0]).Ok? { GroupErrorsAreEarly(GroupAxes(known, groups[0]).value, groups[1..]); }
    }
  }

  lemma GroupEntryErrorsAreEarly(groups: Entries<EdgeGroup>)
    ensures Collect(groups, GroupEntries).Err? ==> Early(Collect(groups, GroupEntries).error)
  {
    CollectError(groups, GroupEntries);
  }

  /** Everything before the runs are built, except for the phase specifications, fails early if it fails. */
  lemma InputErrorsAreEarly(x: Input)
    ensures Refused(x).Some? ==> Early(Refused(x).value)
    ensures var r := PhaseTemplates(x.scenarioPhases, x.templates); r.Err? ==> Early(r.error)
    ensures var r := NamedEdges(x.graph, NodeNames(x.ctx.nodes)); r.Err? ==> Early(r.error)
    ensures var r := PhaseEntries(x.phases, x.groups, x.legacyPhases); r.Err? ==> Early(r.error)
    ensures AxesByEdge(x.groups).Err? ==> Early(AxesByEdge(x.groups).error)
    ensures Early(NoTemplates)
  {
    hide NodeNames, TemplatesFrom, EdgesFrom, GroupsAxes, GroupEntries, Collect;
    if x.templates.Given? { TemplateErrorsAreEarly(map[], x.templates.value); }
    var edges := GraphEdges(x.graph);
    if edges.Ok? { EdgeErrorsAreEarly(edges.value, NodeNames(x.ctx.nodes)); }
    if x.groups.Given? {
      GroupEntryErrorsAreEarly(x.groups.value);
      GroupErrorsAreEarly(map[], x.groups.value);
    }
  }

  /** The pieces that preparing an input goes through. */
  ghost predicate PreparedFrom(x: Input, job: Job, edges: seq<Option<Edge>>, named: seq<Edge>, names: set<string>) {
    && Consistent(job.specs, named, names)
    && SelectedEdges(job.specs, named, names) == Ok(edges)
    && NamedEdges(x.graph, NodeNames(x.ctx.nodes)) == Ok(named)
    && GlobalAxes(x.exploration, x.selections) == Ok(job.axes)
    && AxesByEdge(x.groups) == Ok(job.byEdge)
    && job == JobOf(x, job.specs, job.axes, job.byEdge)
  }

  /** Extraction and edge selection either fail early or leave consistent phases. */
  lemma ExtractionIsEarly(entries: Entries<RawPhase>, scenarioPhases: bool, raw: Field<Entries<RawTemplate>>,
      named: seq<Edge>, fallback: nat -> string)
    requires PhaseTemplates(scenarioPhases, raw).Ok?
    ensures var names := set e | e in named :: e.name;
      var specs := Specs(entries, PhaseTemplates(scenarioPhases, raw).value, names, fallback);
      if specs.Err? then Early(specs.error)
      else Consistent(specs.value, named, names) && SelectedEdges(specs.value, named, names).Ok?
  {
    hide Early, SelectedEdges, Specs, TemplatesFrom, PassesChecks, HasPhase;
    var templates, names := PhaseTemplates(scenarioPhases, raw).value, set e | e in named :: e.name;
    SpecErrorsAreEarly(entries, templates, names, fallback);
    if Specs(entries, templates, names, fallback).Ok? {
      if raw.Given? { TemplateActionsAreObjects(map[], raw.value); }
      AcceptedSpecsAreChecked(entries, templates, names, fallback);
      SelectionSucceeds(Specs(entries, templates, names, fallback).value, named, names);
    }
  }

  lemma PreparationErrorsAreEarly(x: Input)
    ensures Prepared(x).Err? ==> Early(Prepared(x).error)
  {
    hide Refused, Early, SelectedEdges, Specs, NamedEdges, PhaseTemplates, PhaseEntries, AxesByEdge, GlobalAxes,
        Consistent, NodeNames;
    var templates := PhaseTemplates(x.scenarioPhases, x.templates);
    var found := NamedEdges(x.graph, NodeNames(x.ctx.nodes));
    var entries := PhaseEntries(x.phases, x.groups, x.legacyPhases);
    InputErrorsAreEarly(x);
    GlobalAxisErrorsAreEarly(x.exploration, x.selections);
    if found.Ok? && templates.Ok? && entries.Ok? {
      ExtractionIsEarly(entries.value, x.scenarioPhases, x.templates, found.value, x.fallback);
    }
  }

  lemma PreparationIsConsistent(x: Input) returns (named: seq<Edge>, names: set<string>)
    requires Prepared(x).Ok?
    ensures PreparedFrom(x, Prepared(x).value.0, Prepared(x).value.1, named, names)
  {
    hide Refused, Early, SelectedEdges, Specs, NamedEdges, PhaseTemplates, PhaseEntries, AxesByEdge, GlobalAxes,
        Consistent, NodeNames;
    named := NamedEdges(x.graph, NodeNames(x.ctx.nodes)).value;
    names := set e | e in named :: e.name;
    ExtractionIsEarly(PhaseEntries(x.phases, x.groups, x.legacyPhases).value, x.scenarioPhases, x.templates, named, x.fallback);
  }

  /** Every selected edge gives at least one draft or an error that is not late. */
  lemma EdgesAreNotLate(job: Job, edges: seq<Option<Edge>>, named: seq<Edge>, names: set<string>)
    requires Consistent(job.specs, named, names) && SelectedEdges(job.specs, named, names) == Ok(edges)
    ensures var r := Collect(edges, EdgeStep(job));
            if r.Ok? then r.value != [] else !Late(r.error, job.ctx.nodes)
  {
    hide Late, EdgeResult, PassesChecks, HasPhase, SelectedEdges;
    var step := EdgeStep(job);
    SelectionSucceeds(job.specs, named, names);
    forall e | e in edges ensures if step(e).Ok? then step(e).value != [] else !Late(step(e).error, job.ctx.nodes) {
      EdgeIsNotLate(job, names, e);
    }
    CollectError(edges, step);
    if Collect(edges, step).Ok? {
      CollectMember(edges, step);
      assert edges[0] in edges && step(edges[0]).value[0] in Collect(edges, step).value;
    }
  }

  /** Once the phases have been extracted none of the late errors can occur, whatever the input. */
  lemma EarlyChecksSuffice(x: Input)
    ensures Compiled(x).Err? ==> !Late(Compiled(x).error, x.ctx.nodes)
  {
    hide Collect, Prepared, SelectedEdges, NamedEdges, GlobalAxes, AxesByEdge, Consistent;
    PreparationErrorsAreEarly(x);
    if Prepared(x).Ok? {
      var named, names := PreparationIsConsistent(x);
      EdgesAreNotLate(Prepared(x).value.0, Prepared(x).value.1, named, names);
    }
  }

  /** Changing the modes that phase templates declare changes neither the plan nor the error. */
  lemma CompilationIgnoresTemplateModes(x: Input, templates: Entries<RawTemplate>)
    requires x.templates.Given? && SameRawButModes(x.templates.value, templates)
    ensures Compiled(x.(templates := Given(templates))) == Compiled(x)
  {
    PreparationIgnoresTemplateModes(x, templates);
    hide Prepared, Collect;
  }

  lemma PreparationIgnoresTemplateModes(x: Input, templates: Entries<RawTemplate>)
    requires x.templates.Given? && SameRawButModes(x.templates.value, templates)
    ensures Prepared(x.(templates := Given(templates))) == Prepared(x)
  {
    hide SelectedEdges, Specs, NamedEdges, TemplatesFrom, PhaseEntries, AxesByEdge, GlobalAxes, NodeNames;
    var y := x.(templates := Given(templates));
    ReadingIgnoresModes(map[], map[], x.templates.value, templates);
    var a, b := PhaseTemplates(x.scenarioPhases, x.templates), PhaseTemplates(y.scenarioPhases, y.templates);
    var named, entries := NamedEdges(x.graph, NodeNames(x.ctx.nodes)), PhaseEntries(x.phases, x.groups, x.legacyPhases);
    if a.Ok? && named.Ok? && entries.Ok? {
      assert a.value == map[] <==> b.value == map[] by { assert a.value.Keys == b.value.Keys; }
      SpecsIgnoreTemplateModes(entries.value, a.value, b.value, set e | e in named.value :: e.name, x.fallback);
    }
  }
}
