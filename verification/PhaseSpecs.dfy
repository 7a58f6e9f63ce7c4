/** The early half of the compiler: named edges, phase entries, and the checks every phase has to pass. */
module PhaseSpecs {
  import opened Values
  import opened Sequences
  import opened Templates
  import opened Targeting
  import opened ActionCenter
  import opened Variants

  datatype CompileError =
    | NameRequired | MaxRunsNotPositive | RunsUnsupported | WrongKind
    | EmptyAxisName | EmptyAxisValues | ScenarioPhasesUnsupported | NoTemplates
    | EdgeEndpointMissing | EdgeEndpointUnknown | DuplicateEdgeName
    | LegacyPhasesUnsupported | NoPhaseEntries | EdgeRefsRequired | EdgeRefsEmpty | GroupPhasesRequired
    | TemplateNotFound | StepsUnsupported | ActionNotObject | EmptyPhase | EdgeRefBlank | UnknownEdgeRef
    | EdgePlaceholderWithoutRefs | GroupFilterUnsupported | ConflictingEdgeAxes
    | NoVariant | RenderFailed(faults: set<Fault>) | ActionRejected(reason: ActionError) | TooManyRuns
    | NoNamedEdges | UnknownSelectedEdge | NoMatchingEdge
    | RenderedNotObject | EmptyActionPayload | InvalidTarget(cause: TargetError) | EmptyActionList
    | NoPhases | RunCountBelowOne

  /** A list whose entries should be objects; an entry that is none is None. */
  type Entries<T> = seq<Option<T>>

  /** An edge of the scenario graph; the texts are trimmed, `extra` holds its type and link. */
  datatype RawEdge = RawEdge(from: string, to: string, name: string, extra: map<string, Value>)

  /** A named edge with the values its placeholders read. */
  datatype Edge = Edge(name: string, values: map<string, Value>)

  /** A phase of the experiment. Template and phase name are trimmed; the mode is as written, empty when there is none. */
  datatype RawPhase = RawPhase(useTemplate: string, name: string, mode: string, hasSteps: bool,
      actions: Value, edgeRefs: Field<seq<string>>)

  /** The entries of an axis mapping in document order. */
  type RawAxes = seq<(string, Value)>

  /** One `execEdge` block. */
  datatype EdgeGroup = EdgeGroup(edgeRefs: Field<seq<string>>, phases: Field<Entries<RawPhase>>,
      exploration: Field<Exploration>)

  datatype Exploration = Exploration(hasFilters: bool, axes: Field<RawAxes>)

  datatype Template = Template(mode: string, actions: seq<Value>)

  /** A phase template; the name is trimmed, the mode as written. */
  datatype RawTemplate = RawTemplate(name: string, mode: string, hasSteps: bool, actions: Value)

  datatype PhaseSpec = PhaseSpec(name: string, mode: string, template: string, actions: seq<Value>,
      edgeRefs: Option<seq<string>>)

  // ---------------------------------------------------------------- phase templates

  /** `_phase_actions_raw`: a list of objects, or nothing. */
  function RawActions(raw: Value): Result<seq<Value>, CompileError> {
    match raw
    case Null => Ok([])
    case List(items) => if exists a | a in items :: !a.Dict? then Err(ActionNotObject) else Ok(items)
    case _ => Err(WrongKind)
  }

  function ModeOr(mode: string, otherwise: string): string {
    if mode != "" then mode else otherwise
  }

  /** The templates already read, extended by one: unnamed ones are skipped and a later template replaces an
      earlier one of the same name. */
  function AddedTemplate(known: map<string, Template>, raw: Option<RawTemplate>)
    : Result<map<string, Template>, CompileError>
  {
    if raw.None? || raw.value.name == "" then Ok(known)
    else if raw.value.hasSteps then Err(StepsUnsupported)
    else
      var actions := RawActions(raw.value.actions);
      if actions.Err? then Err(actions.error)
      else Ok(known[raw.value.name := Template(ModeOr(raw.value.mode, "sequential"), actions.value)])
  }

  function TemplatesFrom(known: map<string, Template>, raw: Entries<RawTemplate>)
    : Result<map<string, Template>, CompileError>
    decreases |raw|
  {
    if raw == [] then Ok(known)
    else
      var next := AddedTemplate(known, raw[0]);
      if next.Err? then next else TemplatesFrom(next.value, raw[1..])
  }

  /** What `_extract_phase_templates` returns; a scenario must not have phases of its own. */
  function PhaseTemplates(scenarioPhases: bool, raw: Field<Entries<RawTemplate>>)
    : Result<map<string, Template>, CompileError>
  {
    if scenarioPhases then Err(ScenarioPhasesUnsupported)
    else match raw
      case Absent => Ok(map[])
      case Wrong => Err(WrongKind)
      case Given(items) => TemplatesFrom(map[], items)
  }

  method ExtractPhaseTemplates(scenarioPhases: bool, raw: Field<Entries<RawTemplate>>)
    returns (r: Result<map<string, Template>, CompileError>)
    ensures r == PhaseTemplates(scenarioPhases, raw)
  {
    if scenarioPhases { return Err(ScenarioPhasesUnsupported); }
    var templates: map<string, Template> := map[];
    if raw.Absent? { return Ok(templates); }
    if raw.Wrong? { return Err(WrongKind); }
    var items := raw.value;
    assert items[0..] == items;
    for i := 0 to |items|
      invariant TemplatesFrom(templates, items[i..]) == TemplatesFrom(map[], items)
    {
      assert items[i..][1..] == items[i + 1..];
      if items[i].None? { continue; }
      var t := items[i].value;
      if t.name == "" { continue; }
      if t.hasSteps { return Err(StepsUnsupported); }
      var actions := RawActions(t.actions);
      if actions.Err? { return Err(actions.error); }
      templates := templates[t.name := Template(if t.mode != "" then t.mode else "sequential", actions.value)];
    }
    r := Ok(templates);
  }

  ghost predicate ObjectActions(templates: map<string, Template>) {
    forall t | t in templates :: forall a | a in templates[t].actions :: a.Dict?
  }

  lemma {:induction false} TemplateActionsAreObjects(known: map<string, Template>, raw: Entries<RawTemplate>)
    requires ObjectActions(known) && TemplatesFrom(known, raw).Ok?
    ensures ObjectActions(TemplatesFrom(known, raw).value)
    decreases |raw|
  {
    if raw != [] { TemplateActionsAreObjects(AddedTemplate(known, raw[0]).value, raw[1..]); }
  }

  // ---------------------------------------------------------------- named edges

  function NodeNames(nodes: seq<Node>): set<string> {
    set n | n in nodes && NodeName(n) != "" :: NodeName(n)
  }

  function Named(e: RawEdge): Edge {
    Edge(e.name, e.extra["name" := Str(e.name)]["from" := Str(e.from)]["to" := Str(e.to)])
  }

  predicate HasEdge(edges: seq<Edge>, name: string) {
    exists e | e in edges :: e.name == name
  }

  function AddedEdge(known: seq<Edge>, raw: Option<RawEdge>, nodes: set<string>): Result<seq<Edge>, CompileError> {
    if raw.None? then Err(WrongKind)
    else
      var e := raw.value;
      if e.from == "" || e.to == "" then Err(EdgeEndpointMissing)
      else if nodes != {} && (e.from !in nodes || e.to !in nodes) then Err(EdgeEndpointUnknown)
      else if e.name == "" then Ok(known)
      else if HasEdge(known, e.name) then Err(DuplicateEdgeName)
      else Ok(known + [Named(e)])
  }

  /** The named edges in graph order; the first offending edge decides the error. */
  function EdgesFrom(edges: Entries<RawEdge>, nodes: set<string>): (r: Result<seq<Edge>, CompileError>)
    ensures r.Ok? ==> forall i, j | 0 <= i < j < |r.value| :: r.value[i].name != r.value[j].name
    ensures r.Ok? ==> forall e | e in r.value :: e.name != ""
  {
    if edges == [] then Ok([])
    else
      var before := EdgesFrom(edges[..|edges| - 1], nodes);
      if before.Err? then before else AddedEdge(before.value, edges[|edges| - 1], nodes)
  }

  /** A graph as the scenario holds it: its edge list, when there is one. */
  type RawGraph = Field<Field<Entries<RawEdge>>>

  function GraphEdges(graph: RawGraph): Result<Entries<RawEdge>, CompileError> {
    if graph.Wrong? || (graph.Given? && graph.value.Wrong?) then Err(WrongKind)
    else Ok(if graph.Given? && graph.value.Given? then graph.value.value else [])
  }

  /** What `_extract_named_graph_edges` returns. */
  function NamedEdges(graph: RawGraph, nodes: set<string>): (r: Result<seq<Edge>, CompileError>)
    ensures r.Ok? ==> forall i, j | 0 <= i < j < |r.value| :: r.value[i].name != r.value[j].name
    ensures r.Ok? ==> forall e | e in r.value :: e.name != ""
  {
    var edges := GraphEdges(graph);
    if edges.Err? then Err(edges.error) else EdgesFrom(edges.value, nodes)
  }

  method ExtractNamedEdges(graph: RawGraph, nodes: set<string>)
    returns (r: Result<seq<Edge>, CompileError>, byName: map<string, Edge>)
    ensures r == NamedEdges(graph, nodes)
    ensures r.Ok? ==> byName.Keys == (set e | e in r.value :: e.name) && forall e | e in r.value :: byName[e.name] == e
  {
    assert EdgesFrom([], nodes) == Ok([]);
    hide EdgesFrom;
    var named: seq<Edge> := [];
    byName := map[];
    if graph.Wrong? { return Err(WrongKind), byName; }
    var edges: Entries<RawEdge> := [];
    if graph.Given? {
      if graph.value.Wrong? { return Err(WrongKind), byName; }
      if graph.value.Given? { edges := graph.value.value; }
    }
    assert edges[..0] == [];
    for i := 0 to |edges|
      invariant EdgesFrom(edges[..i], nodes) == Ok(named)
      invariant byName.Keys == (set e | e in named :: e.name) && forall e | e in named :: byName[e.name] == e
    {
      EdgesFromStep(edges, nodes, i);
      if edges[i].None? { return Err(WrongKind), byName; }
      var e := edges[i].value;
      if e.from == "" || e.to == "" { return Err(EdgeEndpointMissing), byName; }
      if nodes != {} && (e.from !in nodes || e.to !in nodes) { return Err(EdgeEndpointUnknown), byName; }
      if e.name != "" {
        if e.name in byName { return Err(DuplicateEdgeName), byName; }
        named := named + [Named(e)];
        byName := byName[e.name := Named(e)];
      }
    }
    assert edges[..|edges|] == edges;
    r := Ok(named);
  }

  /** One more edge: the whole list fails as soon as this edge fails. */
  lemma EdgesFromStep(edges: Entries<RawEdge>, nodes: set<string>, i: nat)
    requires i < |edges| && EdgesFrom(edges[..i], nodes).Ok?
    ensures EdgesFrom(edges[..i + 1], nodes) == AddedEdge(EdgesFrom(edges[..i], nodes).value, edges[i], nodes)
    ensures EdgesFrom(edges[..i + 1], nodes).Err? ==> EdgesFrom(edges, nodes) == EdgesFrom(edges[..i + 1], nodes)
  {
    assert edges[..i + 1][..i] == edges[..i];
    PrefixDecides(edges, nodes, i + 1);
  }

  lemma {:induction false} PrefixDecides(edges: Entries<RawEdge>, nodes: set<string>, i: nat)
    requires i <= |edges|
    ensures EdgesFrom(edges[..i], nodes).Err? ==> EdgesFrom(edges, nodes) == EdgesFrom(edges[..i], nodes)
    decreases |edges|
  {
    if i == |edges| {
      assert edges[..i] == edges;
    } else {
      PrefixDecides(edges[..|edges| - 1], nodes, i);
      assert edges[..|edges| - 1][..i] == edges[..i];
    }
  }

  // ---------------------------------------------------------------- phase entries

  function Inherited(phase: Option<RawPhase>, refs: seq<string>): Option<RawPhase> {
    if phase.Some? && phase.value.edgeRefs.Absent? then Some(phase.value.(edgeRefs := Given(refs))) else phase
  }

  /** The edge references that a group has to have. */
  function GroupRefs(g: Option<EdgeGroup>): Result<seq<string>, CompileError> {
    if g.None? then Err(WrongKind)
    else match g.value.edgeRefs
      case Absent => Err(EdgeRefsRequired)
      case Wrong => Err(WrongKind)
      case Given(refs) => if refs == [] then Err(EdgeRefsEmpty) else Ok(refs)
  }

  function GroupEntries(g: Option<EdgeGroup>): Result<Entries<RawPhase>, CompileError> {
    var refs := GroupRefs(g);
    if refs.Err? then Err(refs.error)
    else match g.value.phases
      case Absent => Err(GroupPhasesRequired)
      case Wrong => Err(WrongKind)
      case Given(phases) => Ok(seq(|phases|, i requires 0 <= i < |phases| => Inherited(phases[i], refs.value)))
  }

  /** The experiment's own phases, then those of its edge groups; `legacy` says whether it uses a retired phase field. */
  function PhaseEntries(phases: Field<Entries<RawPhase>>, groups: Field<Entries<EdgeGroup>>, legacy: bool)
    : Result<Entries<RawPhase>, CompileError>
  {
    if phases.Absent? && groups.Absent? && legacy then Err(LegacyPhasesUnsupported)
    else if phases.Wrong? || groups.Wrong? then Err(WrongKind)
    else
      After(if phases.Given? then phases.value else [],
            if groups.Given? then Collect(groups.value, GroupEntries) else Ok([]))
  }

  method ExtractPhaseEntries(phases: Field<Entries<RawPhase>>, groups: Field<Entries<EdgeGroup>>, legacy: bool)
    returns (r: Result<Entries<RawPhase>, CompileError>)
    ensures r == PhaseEntries(phases, groups, legacy)
  {
    var entries: Entries<RawPhase> := [];
    assert entries + entries == entries;
    if phases.Absent? && groups.Absent? { return if legacy then Err(LegacyPhasesUnsupported) else Ok(entries); }
    if !phases.Absent? {
      if phases.Wrong? { return Err(WrongKind); }
      entries := phases.value;
    }
    ghost var own := entries;
    if !groups.Absent? {
      if groups.Wrong? { return Err(WrongKind); }
      var gs := groups.value;
      assert gs[0..] == gs;
      for i := 0 to |gs|
        invariant After(entries, Collect(gs[i..], GroupEntries)) == PhaseEntries(phases, groups, legacy)
      {
        CollectStep(gs, GroupEntries, i, entries);
        var more := EntriesOfGroup(gs[i]);
        if more.Err? { return Err(more.error); }
        entries := entries + more.value;
      }
      CollectEnd(gs, GroupEntries, entries);
    } else {
      assert own + [] == own;
    }
    r := Ok(entries);
  }

  method EntriesOfGroup(group: Option<EdgeGroup>) returns (r: Result<Entries<RawPhase>, CompileError>)
    ensures r == GroupEntries(group)
  {
    if group.None? { return Err(WrongKind); }
    var g := group.value;
    if g.edgeRefs.Absent? { return Err(EdgeRefsRequired); }
    if g.edgeRefs.Wrong? { return Err(WrongKind); }
    if g.edgeRefs.value == [] { return Err(EdgeRefsEmpty); }
    if g.phases.Absent? { return Err(GroupPhasesRequired); }
    if g.phases.Wrong? { return Err(WrongKind); }
    var inner: Entries<RawPhase> := [];
    for j := 0 to |g.phases.value|
      invariant inner == GroupEntries(group).value[..j]
    {
      var phase := g.phases.value[j];
      if phase.Some? && phase.value.edgeRefs.Absent? {
        phase := Some(phase.value.(edgeRefs := Given(g.edgeRefs.value)));
      }
      inner := inner + [phase];
    }
    assert inner == GroupEntries(group).value;
    r := Ok(inner);
  }

  // ---------------------------------------------------------------- phase specifications

  /** What `_normalize_phase_edge_refs` returns: distinct names in first-appearance order. */
  function EdgeRefs(refs: Field<seq<string>>): Result<Option<seq<string>>, CompileError> {
    match refs
    case Absent => Ok(None)
    case Wrong => Err(WrongKind)
    case Given(names) =>
      if names == [] then Err(EdgeRefsEmpty) else if "" in names then Err(EdgeRefBlank) else Ok(Some(Dedup(names)))
  }

  method NormalizeEdgeRefs(refs: Field<seq<string>>) returns (r: Result<Option<seq<string>>, CompileError>)
    ensures r == EdgeRefs(refs)
  {
    if refs.Absent? { return Ok(None); }
    if refs.Wrong? { return Err(WrongKind); }
    var names := refs.value;
    if names == [] { return Err(EdgeRefsEmpty); }
    var normalized: seq<string> := [];
    for i := 0 to |names|
      invariant "" !in names[..i] && normalized == Dedup(names[..i])
    {
      if names[i] == "" { return Err(EdgeRefBlank); }
      DedupStep(names, i);
      normalized := Added(normalized, names[i]);
    }
    assert names[..|names|] == names;
    r := Ok(Some(normalized));
  }

  predicate UsesEdge(actions: seq<Value>) {
    exists a | a in actions :: ContainsEdge(a)
  }

  /** The actions of an entry: its own, or else those of its template. */
  function ActionsOf(entry: RawPhase, templates: map<string, Template>): Result<seq<Value>, CompileError> {
    if !entry.actions.Null? then RawActions(entry.actions)
    else Ok(if entry.useTemplate in templates && entry.useTemplate != "" then templates[entry.useTemplate].actions else [])
  }

  /** The mode written with the phase, the empty text when that is blank. */
  function WrittenMode(mode: string): string {
    ModeOr(Trim(ModeOr(mode, "sequential")), "sequential")
  }

  /** What one entry becomes, or why it is refused. `position` only names unnamed phases. */
  function SpecOf(raw: Option<RawPhase>, position: string, templates: map<string, Template>, named: set<string>)
    : Result<PhaseSpec, CompileError>
  {
    if raw.None? then Err(WrongKind)
    else if raw.value.useTemplate != "" && raw.value.useTemplate !in templates then Err(TemplateNotFound)
    else if raw.value.hasSteps then Err(StepsUnsupported)
    else
      var entry := raw.value;
      var templateMode := if entry.useTemplate != "" then templates[entry.useTemplate].mode else "sequential";
      var actions, refs := ActionsOf(entry, templates), EdgeRefs(entry.edgeRefs);
      if actions.Err? then Err(actions.error)
      else if actions.value == [] then Err(EmptyPhase)
      else if refs.Err? then Err(refs.error)
      else if refs.value.Some? && exists n | n in refs.value.value :: n !in named then Err(UnknownEdgeRef)
      else if UsesEdge(actions.value) && refs.value.None? then Err(EdgePlaceholderWithoutRefs)
      else Ok(PhaseSpec(ModeOr(entry.name, ModeOr(entry.useTemplate, position)),
                        ModeOr(WrittenMode(entry.mode), ModeOr(templateMode, "sequential")),
                        entry.useTemplate, actions.value, refs.value))
  }

  function SpecStep(templates: map<string, Template>, named: set<string>, fallback: nat -> string)
    : ((nat, Option<RawPhase>)) -> Result<seq<PhaseSpec>, CompileError>
  {
    (e: (nat, Option<RawPhase>)) =>
      var spec := SpecOf(e.1, fallback(e.0), templates, named);
      if spec.Ok? then Ok([spec.value]) else Err(spec.error)
  }

  function Numbered<T>(s: seq<T>): seq<(nat, T)> {
    seq(|s|, i requires 0 <= i < |s| => (i, s[i]))
  }

  /** What `_extract_phase_specs` returns; `fallback` gives the fallback name of an entry. */
  function Specs(entries: Entries<RawPhase>, templates: map<string, Template>, named: set<string>, fallback: nat -> string)
    : Result<seq<PhaseSpec>, CompileError>
  {
    if entries == [] then Err(NoPhaseEntries) else Collect(Numbered(entries), SpecStep(templates, named, fallback))
  }

  method ExtractPhaseSpec(raw: Option<RawPhase>, position: string, templates: map<string, Template>, named: set<string>)
    returns (r: Result<PhaseSpec, CompileError>)
    ensures r == SpecOf(raw, position, templates, named)
  {
    if raw.None? { return Err(WrongKind); }
    var entry := raw.value;
    var phaseMode := Trim(if entry.mode != "" then entry.mode else "sequential");
    if phaseMode == "" { phaseMode := "sequential"; }
    var templateActions: seq<Value> := [];
    var templateMode := "sequential";
    if entry.useTemplate != "" {
      if entry.useTemplate !in templates { return Err(TemplateNotFound); }
      templateActions, templateMode := templates[entry.useTemplate].actions, templates[entry.useTemplate].mode;
    }
    if entry.hasSteps { return Err(StepsUnsupported); }
    var actions := templateActions;
    if entry.actions != Null {
      var own := RawActions(entry.actions);
      if own.Err? { return Err(own.error); }
      actions := own.value;
    }
    if actions == [] { return Err(EmptyPhase); }
    var refs := NormalizeEdgeRefs(entry.edgeRefs);
    if refs.Err? { return Err(refs.error); }
    if refs.value.Some? && exists n | n in refs.value.value :: n !in named { return Err(UnknownEdgeRef); }
    if UsesEdge(actions) && refs.value.None? { return Err(EdgePlaceholderWithoutRefs); }
    var name := if entry.name != "" then entry.name else if entry.useTemplate != "" then entry.useTemplate else position;
    var mode := if phaseMode != "" then phaseMode else if templateMode != "" then templateMode else "sequential";
    r := Ok(PhaseSpec(name, mode, entry.useTemplate, actions, refs.value));
  }

  method ExtractPhaseSpecs(entries: Entries<RawPhase>, templates: map<string, Template>, named: set<string>,
      fallback: nat -> string)
    returns (r: Result<seq<PhaseSpec>, CompileError>)
    ensures r == Specs(entries, templates, named, fallback)
  {
    if entries == [] { return Err(NoPhaseEntries); }
    var specs: seq<PhaseSpec> := [];
    ghost var all, step := Numbered(entries), SpecStep(templates, named, fallback);
    CollectStart(all, step);
    for i := 0 to |entries|
      invariant After(specs, Collect(all[i..], step)) == Collect(all, step)
    {
      CollectStep(all, step, i, specs);
      var spec := ExtractPhaseSpec(entries[i], fallback(i), templates, named);
      if spec.Err? { return Err(spec.error); }
      specs := specs + [spec.value];
    }
    CollectEnd(all, step, specs);
    r := Ok(specs);
  }

  /** What the later stages may rely on. */
  ghost predicate PassesChecks(spec: PhaseSpec, named: set<string>) {
    && spec.actions != [] && (forall a | a in spec.actions :: a.Dict?)
    && (spec.edgeRefs.Some? ==> spec.edgeRefs.value != [] && forall n | n in spec.edgeRefs.value :: n in named && n != "")
    && (UsesEdge(spec.actions) ==> spec.edgeRefs.Some?)
  }

  /** Every phase the extraction accepts has passed all checks. */
  lemma AcceptedSpecsAreChecked(entries: Entries<RawPhase>, templates: map<string, Template>, named: set<string>,
      fallback: nat -> string)
    requires ObjectActions(templates)
    requires Specs(entries, templates, named, fallback).Ok?
    ensures Specs(entries, templates, named, fallback).value != []
    ensures forall spec | spec in Specs(entries, templates, named, fallback).value :: PassesChecks(spec, named)
  {
    hide SpecOf, PassesChecks;
    var all, step := Numbered(entries), SpecStep(templates, named, fallback);
    CollectMember(all, step);
    assert all[0] in all;
    var specs := Specs(entries, templates, named, fallback).value;
    assert step(all[0]).value[0] in specs;
    forall spec | spec in specs ensures PassesChecks(spec, named) {
      var e :| e in all && step(e).Ok? && spec in step(e).value;
      SpecIsChecked(e.1, fallback(e.0), templates, named);
    }
  }

  lemma SpecIsChecked(raw: Option<RawPhase>, position: string, templates: map<string, Template>, named: set<string>)
    requires ObjectActions(templates)
    requires SpecOf(raw, position, templates, named).Ok?
    ensures PassesChecks(SpecOf(raw, position, templates, named).value, named)
  {
    hide UsesEdge, WrittenMode, ModeOr;
    var refs := raw.value.edgeRefs;
    if refs.Given? { assert refs.value[0] in Dedup(refs.value); }
  }

  // ---------------------------------------------------------------- modes of templates

  /** The same templates, their modes aside. */
  ghost predicate SameButModes(a: map<string, Template>, b: map<string, Template>) {
    a.Keys == b.Keys && forall t | t in a :: a[t].actions == b[t].actions
  }

  function Modeless(raw: Option<RawTemplate>): Option<RawTemplate> {
    if raw.Some? then Some(raw.value.(mode := "")) else None
  }

  ghost predicate SameRawButModes(a: Entries<RawTemplate>, b: Entries<RawTemplate>) {
    |a| == |b| && forall i | 0 <= i < |a| :: Modeless(a[i]) == Modeless(b[i])
  }

  /** Reading templates that differ in their modes fails alike or gives templates that differ in their modes. */
  lemma {:induction false} ReadingIgnoresModes(known: map<string, Template>, other: map<string, Template>,
      a: Entries<RawTemplate>, b: Entries<RawTemplate>)
    requires SameButModes(known, other) && SameRawButModes(a, b)
    ensures var r, s := TemplatesFrom(known, a), TemplatesFrom(other, b);
      if r.Ok? then s.Ok? && SameButModes(r.value, s.value) else s == r
    decreases |a|
  {
    if a != [] {
      assert a[0] == b[0] || a[0].value.(mode := "") == b[0].value.(mode := "");
      var r, s := AddedTemplate(known, a[0]), AddedTemplate(other, b[0]);
      if r.Ok? { ReadingIgnoresModes(r.value, s.value, a[1..], b[1..]); }
    }
  }

  /** A phase always has a mode of its own, so the fallback to the mode of its template is never taken. */
  lemma SpecIgnoresTemplateModes(raw: Option<RawPhase>, position: string, a: map<string, Template>, b: map<string, Template>,
      named: set<string>)
    requires SameButModes(a, b)
    ensures SpecOf(raw, position, a, named) == SpecOf(raw, position, b, named)
  {
  }

  lemma SpecsIgnoreTemplateModes(entries: Entries<RawPhase>, a: map<string, Template>, b: map<string, Template>,
      named: set<string>, fallback: nat -> string)
    requires SameButModes(a, b)
    ensures Specs(entries, a, named, fallback) == Specs(entries, b, named, fallback)
  {
    forall e | e in Numbered(entries) ensures SpecStep(a, named, fallback)(e) == SpecStep(b, named, fallback)(e) {
      SpecIgnoresTemplateModes(e.1, fallback(e.0), a, b, named);
    }
    CollectSame(Numbered(entries), SpecStep(a, named, fallback), SpecStep(b, named, fallback));
  }
}
