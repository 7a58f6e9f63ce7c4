/** A compiled plan in terms of the experiment and the scenario as they are written. */
module PlanMeaning {
  import opened Values
  import opened Ordering
  import opened Sequences
  import opened Templates
  import opened Targeting
  import opened ActionCenter
  import opened Variants
  import opened PhaseSpecs
  import opened PhaseMeaning
  import opened PlanCompiler
  import opened PlanGrid

  // ---------------------------------------------------------------- axes

  /** An edge group that gives the edge an axis of this name with these values. */
  ghost predicate GivesAxis(g: Option<EdgeGroup>, edge: string, n: string, values: seq<Value>) {
    && g.Some? && g.value.edgeRefs.Given? && edge in g.value.edgeRefs.value
    && g.value.exploration.Given? && g.value.exploration.value.axes.Given?
    && LastNamed(g.value.exploration.value.axes.value, n) == Some(values)
  }

  ghost predicate GroupGives(x: Input, edge: Option<Edge>, n: string, values: seq<Value>) {
    edge.Some? && x.groups.Given? && exists g | g in x.groups.value :: GivesAxis(g, edge.value.name, n, values)
  }

  /** The axis of this name that holds for all edges: its last exploration entry, or else its first selection. */
  function GlobalAxis(x: Input, n: string): Option<seq<Value>> {
    var explored := if x.exploration.Given? && x.exploration.value.axes.Given? then x.exploration.value.axes.value else [];
    var selected := if x.selections.Given? then x.selections.value else [];
    if LastNamed(explored, n).Some? then LastNamed(explored, n)
    else if n == "" then None
    else FirstNamed(selected, n)
  }

  /** The axes of a run over this edge: what its groups give it, and under the other names what holds for all edges. */
  ghost predicate AxesAsWritten(x: Input, edge: Option<Edge>, axes: Axes) {
    forall n ::
      && (forall values | GroupGives(x, edge, n, values) :: n in axes && axes[n] == values)
      && ((forall values :: !GroupGives(x, edge, n, values)) ==> Lookup(axes, n) == GlobalAxis(x, n))
  }

  lemma AsWrittenIsUnique(x: Input, edge: Option<Edge>, a: Axes, b: Axes)
    requires AxesAsWritten(x, edge, a) && AxesAsWritten(x, edge, b)
    ensures a == b
  {
    hide GroupGives, GlobalAxis;
    forall n ensures Lookup(a, n) == Lookup(b, n) {
      if values :| GroupGives(x, edge, n, values) { assert a[n] == values == b[n]; }
    }
    assert forall n :: n in a <==> Lookup(a, n).Some?;
    assert forall n :: n in b <==> Lookup(b, n).Some?;
    forall n | n in a ensures n in b && a[n] == b[n] { assert Lookup(a, n) == Lookup(b, n); }
    forall n | n in b ensures n in a { assert Lookup(a, n) == Lookup(b, n); }
  }

  /** A group gives axes to an edge exactly name by name. */
  lemma GivesByName(g: Option<EdgeGroup>, edge: string, axes: Axes, n: string, values: seq<Value>)
    requires Gives(g, edge, axes)
    ensures GivesAxis(g, edge, n, values) <==> n in axes && axes[n] == values
  {
    AxisAt(map[], EntriesOf(g.value.exploration.value.axes), n);
  }

  /** When the groups are accepted, a group that gives the edge an axis gives it its whole axes. */
  lemma AxisComesWithOthers(groups: Entries<EdgeGroup>, g: Option<EdgeGroup>, edge: string)
    requires GroupsAxes(map[], groups).Ok? && g in groups
    requires g.Some? && g.value.edgeRefs.Given? && edge in g.value.edgeRefs.value && g.value.exploration.Given?
    ensures OwnAxes(g.value.exploration.value).Ok? && Gives(g, edge, OwnAxes(g.value.exploration.value).value)
  {
    AcceptedGroup(map[], groups, g);
  }

  lemma {:induction false} AcceptedGroup(known: EdgeAxes, groups: Entries<EdgeGroup>, g: Option<EdgeGroup>)
    requires GroupsAxes(known, groups).Ok? && g in groups
    ensures exists before :: GroupAxes(before, g).Ok?
    decreases |groups|
  {
    hide GroupAxes;
    if g == groups[0] {
      assert GroupAxes(known, g).Ok?;
    } else {
      AcceptedGroup(GroupAxes(known, groups[0]).value, groups[1..], g);
    }
  }

  lemma EdgeAxisExactly(x: Input, edge: Option<Edge>, n: string, values: seq<Value>)
    requires AxesByEdge(x.groups).Ok?
    ensures var byEdge := AxesByEdge(x.groups).value;
      GroupGives(x, edge, n, values) <==>
      edge.Some? && edge.value.name in byEdge && n in byEdge[edge.value.name] && byEdge[edge.value.name][n] == values
  {
    hide AxesByEdge, OwnAxes, GroupsAxes, LastNamed;
    var byEdge := AxesByEdge(x.groups).value;
    if edge.Some? {
      var name := edge.value.name;
      if GroupGives(x, edge, n, values) {
        var g :| g in x.groups.value && GivesAxis(g, name, n, values);
        assert GroupsAxes(map[], x.groups.value).Ok? by { AcceptedAxes(x.groups); }
        AxisComesWithOthers(x.groups.value, g, name);
        var axes := OwnAxes(g.value.exploration.value).value;
        assert GivenBy(x.groups.value, name, axes);
        EdgeAxesAreTheGroups(x.groups, name, axes);
        GivesByName(g, name, axes, n, values);
      }
      if name in byEdge && n in byEdge[name] && byEdge[name][n] == values {
        EdgeAxesAreTheGroups(x.groups, name, byEdge[name]);
        var g :| g in x.groups.value && Gives(g, name, byEdge[name]);
        GivesByName(g, name, byEdge[name], n, values);
      }
    }
  }

  lemma AcceptedAxes(groups: Field<Entries<EdgeGroup>>)
    requires AxesByEdge(groups).Ok? && groups.Given?
    ensures GroupsAxes(map[], groups.value).Ok?
  {
  }

  lemma GlobalAxisAsWritten(x: Input, n: string)
    requires GlobalAxes(x.exploration, x.selections).Ok?
    ensures Lookup(GlobalAxes(x.exploration, x.selections).value, n) == GlobalAxis(x, n)
  {
    hide LastNamed, FirstNamed, GlobalAxes;
    GlobalAxisExactly(x.exploration, x.selections, n);
  }

  lemma PreparedAxes(x: Input)
    requires Prepared(x).Ok?
    ensures GlobalAxes(x.exploration, x.selections) == Ok(Prepared(x).value.0.axes)
    ensures AxesByEdge(x.groups) == Ok(Prepared(x).value.0.byEdge)
  {
  }

  /** One name among the axes of an edge: its own axis, or else the global one. */
  lemma AxisOfRun(axes: Axes, byEdge: EdgeAxes, edge: Option<Edge>, n: string)
    ensures Lookup(AxesFor(axes, byEdge, edge), n) ==
      if edge.Some? && edge.value.name in byEdge && n in byEdge[edge.value.name] then Some(byEdge[edge.value.name][n])
      else Lookup(axes, n)
  {
  }

  /** The axes that the compiler uses for an edge are those the experiment writes for it: the edge's own win over the
      global ones, name by name. */
  lemma RunAxesAsWritten(x: Input, edge: Option<Edge>)
    requires Prepared(x).Ok?
    ensures AxesAsWritten(x, edge, AxesFor(Prepared(x).value.0.axes, Prepared(x).value.0.byEdge, edge))
  {
    PreparedAxes(x);
    hide Prepared, AxesByEdge, GlobalAxes, GlobalAxis, GroupGives, AxesFor;
    var job := Prepared(x).value.0;
    var axes := AxesFor(job.axes, job.byEdge, edge);
    forall n
      ensures forall values | GroupGives(x, edge, n, values) :: n in axes && axes[n] == values
      ensures (forall values :: !GroupGives(x, edge, n, values)) ==> Lookup(axes, n) == GlobalAxis(x, n)
    {
      GlobalAxisAsWritten(x, n);
      AxisOfRun(job.axes, job.byEdge, edge, n);
      forall values { EdgeAxisExactly(x, edge, n, values); }
      if edge.Some? && edge.value.name in job.byEdge && n in job.byEdge[edge.value.name] {
        assert GroupGives(x, edge, n, job.byEdge[edge.value.name][n]);
      }
    }
  }

  /** A group lists its edges, and its axes, if it gives any, are proper ones for named edges, without filters. */
  ghost predicate FineGroup(g: Option<EdgeGroup>) {
    && g.Some? && g.value.edgeRefs.Given? && g.value.edgeRefs.value != [] && !g.value.exploration.Wrong?
    && (g.value.exploration.Given? ==>
          && !g.value.exploration.value.hasFilters && !g.value.exploration.value.axes.Wrong?
          && ProperEntries(EntriesOf(g.value.exploration.value.axes)) && "" !in g.value.edgeRefs.value)
  }

  /** Both groups give axes, and to this edge. */
  ghost predicate Share(g: Option<EdgeGroup>, h: Option<EdgeGroup>, edge: string) {
    FineGroup(g) && FineGroup(h) && g.value.exploration.Given? && h.value.exploration.Given?
    && edge in g.value.edgeRefs.value && edge in h.value.edgeRefs.value
  }

  ghost predicate Conflict(g: Option<EdgeGroup>, h: Option<EdgeGroup>) {
    exists edge :: Share(g, h, edge) && OwnAxes(g.value.exploration.value) != OwnAxes(h.value.exploration.value)
  }

  /** The group gives no edge other axes than are already known. */
  ghost predicate FitsKnown(known: EdgeAxes, g: Option<EdgeGroup>) {
    FineGroup(g) && g.value.exploration.Given? ==>
      forall edge | edge in g.value.edgeRefs.value && edge in known ::
        Ok(known[edge]) == OwnAxes(g.value.exploration.value)
  }

  predicate MayTake(known: EdgeAxes, edge: string, axes: Axes) {
    edge != "" && (edge in known ==> known[edge] == axes)
  }

  lemma {:induction false} AssignedExactly(known: EdgeAxes, refs: seq<string>, axes: Axes)
    ensures AssignAxes(known, refs, axes).Ok? <==>
      forall edge | edge in refs :: MayTake(known, edge, axes)
    decreases |refs|
  {
    if refs != [] {
      var first, rest := refs[0], refs[1..];
      assert refs == [first] + rest && first in refs;
      if MayTake(known, first, axes) {
        AssignedExactly(known[first := axes], rest, axes);
        forall edge ensures MayTake(known[first := axes], edge, axes) <==> MayTake(known, edge, axes) {}
        hide MayTake;
        assert (forall edge | edge in refs :: MayTake(known, edge, axes)) <==>
          (forall edge | edge in rest :: MayTake(known, edge, axes));
      }
    }
  }

  lemma GroupFits(known: EdgeAxes, g: Option<EdgeGroup>)
    ensures GroupAxes(known, g).Ok? <==> FineGroup(g) && FitsKnown(known, g)
  {
    if g.Some? && g.value.exploration.Given? && g.value.edgeRefs.Given? {
      AxesAcceptedExactly(map[], EntriesOf(g.value.exploration.value.axes));
      if OwnAxes(g.value.exploration.value).Ok? {
        AssignedExactly(known, g.value.edgeRefs.value, OwnAxes(g.value.exploration.value).value);
      }
    }
    hide AxesFrom, ProperEntries;
  }

  lemma FitsAfter(known: EdgeAxes, g: Option<EdgeGroup>, h: Option<EdgeGroup>)
    requires GroupAxes(known, g).Ok? && FineGroup(h)
    ensures FitsKnown(GroupAxes(known, g).value, h) <==> FitsKnown(known, h) && !Conflict(g, h)
  {
    GroupFits(known, g);
    if g.value.exploration.Given? && h.value.exploration.Given? {
      var axes := OwnAxes(g.value.exploration.value).value;
      forall edge { AssignedAxes(known, g.value.edgeRefs.value, axes, edge); }
      hide AssignAxes, OwnAxes, ProperEntries;
      var next, own := GroupAxes(known, g).value, OwnAxes(h.value.exploration.value);
      if FitsKnown(next, h) {
        forall edge | Share(g, h, edge) ensures Ok(axes) == own { assert next[edge] == axes; }
        forall edge | edge in h.value.edgeRefs.value && edge in known ensures Ok(known[edge]) == own {
          assert next[edge] == known[edge];
        }
      }
      if FitsKnown(known, h) && !Conflict(g, h) {
        forall edge | edge in h.value.edgeRefs.value && edge in next ensures Ok(next[edge]) == own {
          if edge in g.value.edgeRefs.value { assert Share(g, h, edge); }
        }
      }
    }
  }

  lemma {:induction false} GroupsAcceptedExactly(known: EdgeAxes, groups: Entries<EdgeGroup>)
    ensures GroupsAxes(known, groups).Ok? <==>
      && (forall g | g in groups :: FineGroup(g) && FitsKnown(known, g))
      && forall i, j | 0 <= i < j < |groups| :: !Conflict(groups[i], groups[j])
    decreases |groups|
  {
    hide FineGroup, FitsKnown, Conflict, GroupAxes;
    if groups != [] {
      var rest := groups[1..];
      GroupFits(known, groups[0]);
      assert groups == [groups[0]] + rest && forall j | 0 < j < |groups| :: groups[j] == rest[j - 1];
      if GroupAxes(known, groups[0]).Ok? {
        GroupsAcceptedExactly(GroupAxes(known, groups[0]).value, rest);
        forall h | h in rest && FineGroup(h) { FitsAfter(known, groups[0], h); }
        assert forall h | h in rest :: h in groups;
        if GroupsAxes(known, groups).Ok? {
          forall i, j | 0 <= i < j < |groups| ensures !Conflict(groups[i], groups[j]) {
            if i == 0 { assert rest[j - 1] in rest; } else { assert !Conflict(rest[i - 1], rest[j - 1]); }
          }
        }
        if (forall g | g in groups :: FineGroup(g) && FitsKnown(known, g))
          && (forall i, j | 0 <= i < j < |groups| :: !Conflict(groups[i], groups[j]))
        {
          forall i, j | 0 <= i < j < |rest| ensures !Conflict(rest[i], rest[j]) {
            assert !Conflict(groups[i + 1], groups[j + 1]);
          }
          forall h | h in rest ensures FitsKnown(GroupAxes(known, groups[0]).value, h) {
            var j :| 0 <= j < |rest| && rest[j] == h;
            assert !Conflict(groups[0], groups[j + 1]);
          }
        }
      }
    }
  }

  /** Edge groups are refused exactly when one is malformed or two of them give one edge different axes. */
  lemma EdgeAxesAcceptedExactly(groups: Field<Entries<EdgeGroup>>)
    ensures AxesByEdge(groups).Ok? <==> !groups.Wrong? && (groups.Given? ==>
      && (forall g | g in groups.value :: FineGroup(g))
      && forall i, j | 0 <= i < j < |groups.value| :: !Conflict(groups.value[i], groups.value[j]))
  {
    hide FineGroup, Conflict, GroupsAxes;
    if groups.Given? {
      GroupsAcceptedExactly(map[], groups.value);
      forall g ensures FitsKnown(map[], g) {}
    }
  }

  // ---------------------------------------------------------------- filters

  /** The variant agrees with a filter: an object each of whose entries it has, a key it lacks counting as null. */
  ghost predicate Agrees(v: Assignment, f: Value) {
    f.Dict? && forall k | k in f.m :: if k in v then v[k] == f.m[k] else f.m[k] == Null
  }

  /** The exploration's filters let the variant through: if there are any to include it agrees with one, and it agrees
      with none to exclude. */
  ghost predicate Admitted(x: Input, v: Assignment) {
    x.exploration.Given? ==>
      && (x.exploration.value.included.Given? && x.exploration.value.included.value != [] ==>
            exists f | f in x.exploration.value.included.value :: Agrees(v, f))
      && (x.exploration.value.excluded.Given? ==>
            forall f | f in x.exploration.value.excluded.value :: !Agrees(v, f))
  }

  lemma KeptIsAdmitted(x: Input, v: Assignment)
    requires Prepared(x).Ok?
    ensures var job := Prepared(x).value.0;
      Kept(v, FiltersOf(job.included), FiltersOf(job.excluded)) <==> Admitted(x, v)
  {
    var job := Prepared(x).value.0;
    assert job == JobOf(x, job.specs, job.axes, job.byEdge);
    hide Prepared;
    forall f: Value | f.Dict? ensures MatchesPartial(v, f.m) <==> Agrees(v, f) {}
    hide MatchesPartial, Agrees;
  }

  // ---------------------------------------------------------------- the grid

  /** Every choice of values from the axes written for a selected edge that the filters admit has its run. */
  lemma EveryKeptChoiceHasItsRun(x: Input, e: nat, axes: Axes, at: seq<nat>)
    requires Compiled(x).Ok? && Prepared(x).Ok? && e < |Prepared(x).value.1|
    requires AxesAsWritten(x, Prepared(x).value.1[e], axes) && Choice(SortedNames(axes.Keys), axes, at)
    ensures forall v | Picks(v, SortedNames(axes.Keys), axes, at) && Admitted(x, v) ::
      exists r | r in Compiled(x).value :: r.draft.edge == Prepared(x).value.1[e] && r.draft.variant == v
  {
    hide Prepared, Compiled, AxesAsWritten, Admitted, Kept;
    RunAxesAsWritten(x, Prepared(x).value.1[e]);
    AsWrittenIsUnique(x, Prepared(x).value.1[e], axes, RunAxes(x, e));
    KeptChoiceIsFilled(x, e, at);
    forall v { KeptIsAdmitted(x, v); }
  }

  /** Every run belongs to a selected edge, makes a choice from the axes written for it, and is admitted. */
  lemma EveryRunIsAKeptChoice(x: Input, i: nat) returns (axes: Axes, at: seq<nat>)
    requires Compiled(x).Ok? && i < |Compiled(x).value|
    ensures Prepared(x).Ok?
    ensures var d := Compiled(x).value[i].draft;
      && d.edge in Prepared(x).value.1 && AxesAsWritten(x, d.edge, axes)
      && Choice(SortedNames(axes.Keys), axes, at) && Picks(d.variant, SortedNames(axes.Keys), axes, at)
      && Admitted(x, d.variant)
  {
    hide Compiled, AxesAsWritten, Admitted, Kept;
    var d := Compiled(x).value[i].draft;
    at := RunIsAChoice(x, i);
    axes := AxesFor(Prepared(x).value.0.axes, Prepared(x).value.0.byEdge, d.edge);
    RunAxesAsWritten(x, d.edge);
    KeptIsAdmitted(x, d.variant);
  }

  // ---------------------------------------------------------------- phases and actions

  /** The phase belongs to the runs over this edge: it names no edges, or this one. */
  predicate BelongsTo(spec: PhaseSpec, edge: Option<Edge>) {
    spec.edgeRefs.None? || (edge.Some? && edge.value.name in spec.edgeRefs.value)
  }

  /** The action has the type and the parameters that its document has once every placeholder has its value. */
  ghost predicate MadeFrom(a: Action, document: Value, scopes: Scopes, show: Value -> string) {
    exists filled: Value :: SameShape(document, filled, scopes, show) && filled.Dict? && CarriesOver(a, filled.m, show)
  }

  /** `owner` gives for each action the document it is made from; the documents are taken in order, each at least
      once. */
  ghost predicate MadeInOrder(actions: seq<Action>, documents: seq<Value>, owner: seq<nat>, scopes: Scopes,
      show: Value -> string)
  {
    && |owner| == |actions|
    && (forall i, j | 0 <= i < j < |owner| :: owner[i] <= owner[j])
    && (forall d: nat | d < |documents| :: d in owner)
    && forall k | 0 <= k < |actions| :: owner[k] < |documents| && MadeFrom(actions[k], documents[owner[k]], scopes, show)
  }

  /** The phase is this specification with its action documents turned into actions. */
  ghost predicate Realises(phase: Phase, spec: PhaseSpec, scopes: Scopes, show: Value -> string) {
    && phase.name == spec.name && phase.mode == spec.mode && phase.template == spec.template
    && exists owner :: MadeInOrder(phase.actions, spec.actions, owner, scopes, show)
  }

  lemma RetargetedCarriesOver(a: Action, raw: Action, nodes: seq<Node>, show: Value -> string)
    requires CarriesOver(a, raw, show) && Targeted(a, nodes, show).Ok?
    ensures forall b | b in Targeted(a, nodes, show).value :: CarriesOver(b, raw, show)
  {
    TargetedKeepsTheRest(a, nodes, show, "type");
    TargetedKeepsTheRest(a, nodes, show, "parameters");
    TargetedKeepsTheRest(a, nodes, show, "preset");
    TargetedKeepsTargets(a, nodes, show);
    hide Targeted, Trim, Text;
  }

  lemma TargetedKeepsTargets(a: Action, nodes: seq<Node>, show: Value -> string)
    requires Targeted(a, nodes, show).Ok?
    ensures forall b | b in Targeted(a, nodes, show).value ::
      && (Get(b, "targets").Null? <==> Get(a, "targets").Null?)
      && b.Keys <= a.Keys + {"target", "targetRef", "targets"}
  {
    hide ParseActionRef, Resolved, ResolvedAll, RefTo;
  }

  lemma ActionMadeFrom(document: Value, ctx: Context, scopes: Scopes)
    requires ActionResult(document, ctx, scopes).Ok?
    ensures ActionResult(document, ctx, scopes).value != []
    ensures forall a | a in ActionResult(document, ctx, scopes).value :: MadeFrom(a, document, scopes, ctx.cat.show)
  {
    var filled := Render(document, scopes, ctx.cat.show).value;
    RenderKeepsShape(document, scopes, ctx.cat.show);
    NormalizedCarriesOver(filled.m, ctx.nodes, ctx.cat);
    var normal := Normalized(filled.m, ctx.nodes, ctx.cat).value;
    hide Normalized, Render, SameShape, CarriesOver, Targeted;
    CollectMember(normal, Retarget(ctx));
    assert normal[0] in normal && Retarget(ctx)(normal[0]).Ok?;
    assert Retarget(ctx)(normal[0]).value[0] in Collect(normal, Retarget(ctx)).value;
    forall b | b in Collect(normal, Retarget(ctx)).value ensures MadeFrom(b, document, scopes, ctx.cat.show) {
      var a :| a in normal && Retarget(ctx)(a).Ok? && b in Retarget(ctx)(a).value;
      RetargetedCarriesOver(a, filled.m, ctx.nodes, ctx.cat.show);
    }
  }

  lemma {:induction false} ActionsMadeInOrder(documents: seq<Value>, ctx: Context, scopes: Scopes) returns (owner: seq<nat>)
    requires Collect(documents, ActionStep(ctx, scopes)).Ok?
    ensures MadeInOrder(Collect(documents, ActionStep(ctx, scopes)).value, documents, owner, scopes, ctx.cat.show)
  {
    hide ActionResult, MadeFrom;
    if documents == [] {
      owner := [];
    } else {
      ActionMadeFrom(documents[0], ctx, scopes);
      var first := ActionResult(documents[0], ctx, scopes).value;
      var rest := ActionsMadeInOrder(documents[1..], ctx, scopes);
      owner := seq(|first|, _ => 0) + seq(|rest|, i requires 0 <= i < |rest| => rest[i] + 1);
      assert owner[0] == 0;
      forall d: nat | d < |documents| ensures d in owner {
        if d > 0 {
          var before: nat := d - 1;
          assert before in rest;
          var i :| 0 <= i < |rest| && rest[i] == before;
          assert owner[|first| + i] == d;
        }
      }
    }
  }

  lemma AppliesExactly(spec: PhaseSpec, edge: Option<Edge>, named: set<string>)
    requires PassesChecks(spec, named)
    ensures Applies(spec, edge) <==> BelongsTo(spec, edge)
  {
  }

  ghost predicate RealiseAll(phases: seq<Phase>, specs: seq<PhaseSpec>, scopes: Scopes, show: Value -> string) {
    |phases| == |specs| && forall j | 0 <= j < |phases| :: Realises(phases[j], specs[j], scopes, show)
  }

  lemma {:induction false} PhasesRealise(specs: seq<PhaseSpec>, ctx: Context, variant: Assignment, edge: Option<Edge>,
      named: set<string>)
    requires (forall s | s in specs :: PassesChecks(s, named)) && Materialized(specs, ctx, variant, edge).Ok?
    ensures RealiseAll(Materialized(specs, ctx, variant, edge).value, Filter(specs, s => BelongsTo(s, edge)),
                       ScopesOf(variant, edge), ctx.cat.show)
  {
    hide PassesChecks, ActionResult, MadeInOrder, Applies, BelongsTo;
    if specs != [] {
      AppliesExactly(specs[0], edge, named);
      PhasesRealise(specs[1..], ctx, variant, edge, named);
      if Applies(specs[0], edge) {
        var owner := ActionsMadeInOrder(specs[0].actions, ctx, ScopesOf(variant, edge));
      }
    }
  }

  ghost predicate AllPass(specs: seq<PhaseSpec>, named: set<string>) {
    forall s | s in specs :: PassesChecks(s, named)
  }

  lemma PreparedIsChecked(x: Input)
    requires Prepared(x).Ok?
    ensures exists named :: AllPass(Prepared(x).value.0.specs, named)
    ensures Prepared(x).value.0.ctx == x.ctx
  {
    var templates := PhaseTemplates(x.scenarioPhases, x.templates).value;
    var named := NamedEdges(x.graph, NodeNames(x.ctx.nodes)).value;
    var names := set e | e in named :: e.name;
    var entries := PhaseEntries(x.phases, x.groups, x.legacyPhases).value;
    assert ObjectActions(templates) by { if x.templates.Given? { TemplateActionsAreObjects(map[], x.templates.value); } }
    assert Specs(entries, templates, names, x.fallback) == Ok(Prepared(x).value.0.specs);
    AcceptedSpecsAreChecked(entries, templates, names, x.fallback);
    assert AllPass(Prepared(x).value.0.specs, names);
  }

  /** The phases of every run are the specifications that belong to its edge, in order, and their actions are made from
      the action documents with the values of the run's variant and edge. */
  lemma RunsRealiseTheirPhases(x: Input, i: nat)
    requires Compiled(x).Ok? && i < |Compiled(x).value|
    ensures Prepared(x).Ok?
    ensures var d := Compiled(x).value[i].draft;
      RealiseAll(d.phases, Filter(Prepared(x).value.0.specs, s => BelongsTo(s, d.edge)),
                 Scopes(d.variant, if d.edge.Some? then Some(d.edge.value.values) else None), x.ctx.cat.show)
  {
    hide Compiled, Cells, Materialized, PassesChecks, RealiseAll;
    PlanIsTheGrid(x);
    PreparedIsChecked(x);
    hide Prepared;
    var job, d := Prepared(x).value.0, Compiled(x).value[i].draft;
    var named :| AllPass(job.specs, named);
    PhasesRealise(job.specs, job.ctx, d.variant, d.edge, named);
  }

  /** The specifications a plan is built from say, one by one, what the experiment's phases say, with the actions of the
      last phase template of a name. */
  lemma PhasesAsWritten(x: Input)
    requires Prepared(x).Ok?
    ensures PhaseEntries(x.phases, x.groups, x.legacyPhases).Ok? && PhaseTemplates(x.scenarioPhases, x.templates).Ok?
    ensures var entries, specs := PhaseEntries(x.phases, x.groups, x.legacyPhases).value, Prepared(x).value.0.specs;
      var templates := PhaseTemplates(x.scenarioPhases, x.templates).value;
      && |specs| == |entries| > 0
      && (forall i: nat | i < |specs| :: entries[i].Some? && Says(specs[i], entries[i].value, x.fallback(i), templates))
      && forall n :: var written := if x.templates.Given? then WrittenActions(x.templates.value, n) else None;
           (n in templates <==> written.Some?) && (n in templates ==> templates[n].actions == written.value)
  {
    var templates := PhaseTemplates(x.scenarioPhases, x.templates).value;
    var names := set e | e in NamedEdges(x.graph, NodeNames(x.ctx.nodes)).value :: e.name;
    var entries := PhaseEntries(x.phases, x.groups, x.legacyPhases).value;
    assert Specs(entries, templates, names, x.fallback) == Ok(Prepared(x).value.0.specs);
    hide Prepared, PhaseEntries, NamedEdges, NodeNames, Specs, SpecOf, TemplatesFrom, Says, Acceptable;
    if x.templates.Given? {
      TemplateActionsAreObjects(map[], x.templates.value);
      TemplateNamesAreNotBlank(map[], x.templates.value);
      forall n { TemplatesAsWritten(map[], x.templates.value, n); }
    }
    SpecsAsWritten(entries, templates, names, x.fallback);
  }

  /** The entries of the scenario's graph. */
  function GraphEntries(x: Input): Entries<RawEdge> {
    if x.graph.Given? && x.graph.value.Given? then x.graph.value.value else []
  }

  /** Some phase names this edge. */
  ghost predicate Refers(specs: seq<PhaseSpec>, name: string) {
    name != "" && exists s | s in specs :: s.edgeRefs.Some? && name in s.edgeRefs.value
  }

  /** The edge stands for an entry of the graph that some phase names. */
  ghost predicate FromGraph(edge: Option<Edge>, specs: seq<PhaseSpec>, raw: Entries<RawEdge>) {
    edge.Some? && Refers(specs, edge.value.name) && exists r | r in raw :: r.Some? && StandsFor(edge.value, r.value)
  }

  ghost predicate HasRunContext(r: Option<RawEdge>, edges: seq<Option<Edge>>) {
    r.Some? && exists e | e in edges :: e.Some? && StandsFor(e.value, r.value)
  }

  /** The runs are over exactly those named edges of the graph that some phase names, with the values written there; a
      plan whose phases name no edge has one run context without an edge. */
  lemma EdgesOfAPlan(x: Input)
    requires Prepared(x).Ok?
    ensures var edges, specs := Prepared(x).value.1, Prepared(x).value.0.specs;
      if forall n :: !Refers(specs, n) then edges == [None]
      else
        && (forall e | e in edges :: FromGraph(e, specs, GraphEntries(x)))
        && forall r | r in GraphEntries(x) && r.Some? && Refers(specs, r.value.name) :: HasRunContext(r, edges)
  {
    var named := PreparedEdges(x);
    hide Prepared, Refers, FromGraph, HasRunContext, SelectedEdges, StandFor, NamedEntries;
    var specs, edges := Prepared(x).value.0.specs, Prepared(x).value.1;
    forall e | e in edges && edges != [None] { SelectedIsFromGraph(specs, named, GraphEntries(x), e); }
    forall r | r in GraphEntries(x) && r.Some? && Refers(specs, r.value.name) {
      NamedIsSelected(specs, named, GraphEntries(x), r);
    }
    NothingNamed(specs, named);
  }

  lemma PreparedEdges(x: Input) returns (named: seq<Edge>)
    requires Prepared(x).Ok?
    ensures StandFor(named, NamedEntries(GraphEntries(x)))
    ensures SelectedEdges(Prepared(x).value.0.specs, named, set e | e in named :: e.name) == Ok(Prepared(x).value.1)
  {
    var nodes := NodeNames(x.ctx.nodes);
    named := NamedEdges(x.graph, nodes).value;
    assert NamedEdges(x.graph, nodes) == EdgesFrom(GraphEntries(x), nodes);
    EdgesAsWritten(GraphEntries(x), nodes);
  }

  lemma RefNamesExactly(specs: seq<PhaseSpec>)
    ensures forall n :: n in RefNames(specs) <==> Refers(specs, n)
  {
  }

  lemma NothingNamed(specs: seq<PhaseSpec>, named: seq<Edge>)
    requires SelectedEdges(specs, named, set e | e in named :: e.name).Ok?
    ensures var edges := SelectedEdges(specs, named, set e | e in named :: e.name).value;
      edges == [None] <==> forall n :: !Refers(specs, n)
  {
    RefNamesExactly(specs);
    hide Refers, RefNames;
    if forall n :: !Refers(specs, n) { assert RefNames(specs) == {}; }
    if RefNames(specs) != {} {
      var n :| n in RefNames(specs);
      assert Refers(specs, n);
      var edges := SelectedEdges(specs, named, set e | e in named :: e.name).value;
      assert edges[0].Some?;
    }
  }

  lemma SelectedIsFromGraph(specs: seq<PhaseSpec>, named: seq<Edge>, raw: Entries<RawEdge>, e: Option<Edge>)
    requires StandFor(named, NamedEntries(raw))
    requires SelectedEdges(specs, named, set e | e in named :: e.name).Ok?
    requires var edges := SelectedEdges(specs, named, set e | e in named :: e.name).value; e in edges && edges != [None]
    ensures FromGraph(e, specs, raw)
  {
    OnlyReferencedEdges(specs, named, set e | e in named :: e.name);
    RefNamesExactly(specs);
    hide SelectedEdges, StandsFor, Refers, RefNames;
    var i :| 0 <= i < |named| && named[i] == e.value;
    assert NamedEntries(raw)[i] in NamedEntries(raw);
  }

  lemma NamedIsSelected(specs: seq<PhaseSpec>, named: seq<Edge>, raw: Entries<RawEdge>, r: Option<RawEdge>)
    requires StandFor(named, NamedEntries(raw)) && r in raw && r.Some? && Refers(specs, r.value.name)
    requires SelectedEdges(specs, named, set e | e in named :: e.name).Ok?
    ensures HasRunContext(r, SelectedEdges(specs, named, set e | e in named :: e.name).value)
  {
    var edges := SelectedEdges(specs, named, set e | e in named :: e.name).value;
    RefNamesExactly(specs);
    RefersToNamed(specs, r.value.name);
    hide StandsFor, Refers, RefNames, SelectedEdges;
    var raws := NamedEntries(raw);
    assert r in raws;
    var i :| 0 <= i < |raws| && raws[i] == r;
    StandsForName(named[i], r.value);
    ReferencedEdgesKeepGraphOrder(specs, named, set e | e in named :: e.name, i);
    assert Some(named[i]) in edges;
  }

  lemma RefersToNamed(specs: seq<PhaseSpec>, name: string)
    requires Refers(specs, name)
    ensures name != ""
  {
  }

  lemma StandsForName(edge: Edge, raw: RawEdge)
    requires StandsFor(edge, raw)
    ensures edge.name == raw.name
  {
  }

  /** An input that compiles has a name and uses no retired field. */
  lemma CompiledIsProper(x: Input)
    requires Compiled(x).Ok?
    ensures x.name != "" && x.experimentIsObject && x.scenarioIsObject && (x.execution.Given? ==> !x.execution.value)
  {
  }

  lemma UnlimitedPreparesAlike(x: Input)
    requires x.maxRuns.Some? && x.maxRuns.value >= 1
    ensures Prepared(x.(maxRuns := None)) == Prepared(x)
  {
  }

  /** A limit on the number of runs only refuses plans that have more. */
  lemma LimitExactly(x: Input)
    requires x.maxRuns.Some? && Compiled(x.(maxRuns := None)).Ok?
    ensures var plan := Compiled(x.(maxRuns := None)).value;
      Compiled(x) == if x.maxRuns.value < 1 then Err(MaxRunsNotPositive)
                     else if x.maxRuns.value < |plan| then Err(TooManyRuns) else Ok(plan)
  {
    CompiledIsProper(x.(maxRuns := None));
    if x.maxRuns.value >= 1 {
      UnlimitedPreparesAlike(x);
      hide Prepared;
    }
    hide Collect, WithIds;
  }
}
