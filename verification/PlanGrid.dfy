/** Which runs a compiled plan consists of, and where its actions are aimed. */
module PlanGrid {
  import opened Values
  import opened Ordering
  import opened Sequences
  import opened Targeting
  import opened ActionCenter
  import opened Variants
  import opened PhaseSpecs
  import opened RunIds
  import opened PlanCompiler

  /** A point of the plan: an edge, and the number and values of one of its variants. */
  datatype Cell = Cell(edge: Option<Edge>, number: nat, variant: Assignment)

  function CellsOf(job: Job, edge: Option<Edge>): seq<Cell> {
    var variants := VariantsFor(job, edge);
    seq(|variants|, i requires 0 <= i < |variants| => Cell(edge, i + 1, variants[i]))
  }

  /** The cells of the selected edges, edge after edge. */
  function Cells(job: Job, edges: seq<Option<Edge>>): seq<Cell> {
    if edges == [] then [] else CellsOf(job, edges[0]) + Cells(job, edges[1..])
  }

  ghost predicate Fills(d: Draft, c: Cell, job: Job) {
    && d.edge == c.edge && d.index == c.number && d.variant == c.variant
    && d.runtime == job.ctx.runtimeOf(c.variant)
    && Materialized(job.specs, job.ctx, c.variant, c.edge) == Ok(d.phases)
  }

  ghost predicate FillAll(drafts: seq<Draft>, cells: seq<Cell>, job: Job) {
    |drafts| == |cells| && forall i | 0 <= i < |cells| :: Fills(drafts[i], cells[i], job)
  }

  lemma {:induction false} DraftsFillCells(job: Job, edge: Option<Edge>, items: seq<(nat, Assignment)>)
    requires Collect(items, DraftStep(job.specs, job.ctx, edge)).Ok?
    ensures FillAll(Collect(items, DraftStep(job.specs, job.ctx, edge)).value,
                    seq(|items|, i requires 0 <= i < |items| => Cell(edge, items[i].0 + 1, items[i].1)), job)
  {
    if items != [] { DraftsFillCells(job, edge, items[1..]); }
  }

  lemma {:induction false} EdgesFillCells(job: Job, edges: seq<Option<Edge>>)
    requires Collect(edges, EdgeStep(job)).Ok?
    ensures FillAll(Collect(edges, EdgeStep(job)).value, Cells(job, edges), job)
  {
    hide Materialized, VariantsFor;
    if edges != [] {
      EdgesFillCells(job, edges[1..]);
      var items := Numbered(VariantsFor(job, edges[0]));
      DraftsFillCells(job, edges[0], items);
      assert seq(|items|, i requires 0 <= i < |items| => Cell(edges[0], items[i].0 + 1, items[i].1))
          == CellsOf(job, edges[0]);
    }
  }

  /** The plan is the grid of its selected edges, numbered from 1, and no two runs share an identifier. */
  lemma PlanIsTheGrid(x: Input)
    requires Compiled(x).Ok?
    ensures Prepared(x).Ok?
    ensures var (job, edges) := Prepared(x).value;
            var runs, cells := Compiled(x).value, Cells(job, edges);
            && |runs| == |cells|
            && (forall i | 0 <= i < |runs| :: runs[i].id == RunId(i + 1) && Fills(runs[i].draft, cells[i], job))
            && (forall i, j | 0 <= i < j < |runs| :: runs[i].id != runs[j].id)
  {
    hide Prepared, Collect, Cells, Fills, RunId;
    var (job, edges) := Prepared(x).value;
    EdgesFillCells(job, edges);
    var runs := Compiled(x).value;
    forall i, j | 0 <= i < j < |runs| ensures runs[i].id != runs[j].id {
      if runs[i].id == runs[j].id { RunIdInjective(i + 1, j + 1); }
    }
  }

  lemma {:induction false} CellsAppend(job: Job, a: seq<Option<Edge>>, b: seq<Option<Edge>>)
    ensures Cells(job, a + b) == Cells(job, a) + Cells(job, b)
  {
    if a == [] {
      assert a + b == b;
    } else {
      assert (a + b)[1..] == a[1..] + b;
      CellsAppend(job, a[1..], b);
    }
  }

  lemma CellsSplit(job: Job, edges: seq<Option<Edge>>, e: nat)
    requires e < |edges|
    ensures Cells(job, edges) == Cells(job, edges[..e]) + CellsOf(job, edges[e]) + Cells(job, edges[e + 1..])
  {
    hide CellsOf;
    assert edges == edges[..e] + edges[e..];
    CellsAppend(job, edges[..e], edges[e..]);
    assert edges[e..][1..] == edges[e + 1..];
  }

  /** The k-th variant of the e-th edge comes after all cells of the edges before it. */
  lemma CellAt(job: Job, edges: seq<Option<Edge>>, e: nat, k: nat)
    requires e < |edges| && k < |VariantsFor(job, edges[e])|
    ensures |Cells(job, edges[..e])| + k < |Cells(job, edges)|
    ensures Cells(job, edges)[|Cells(job, edges[..e])| + k] == Cell(edges[e], k + 1, VariantsFor(job, edges[e])[k])
  {
    hide VariantsFor, Cells;
    CellsSplit(job, edges, e);
    var before, own, after := Cells(job, edges[..e]), CellsOf(job, edges[e]), Cells(job, edges[e + 1..]);
    assert (before + own + after)[|before| + k] == own[k];
  }

  lemma {:induction false} CellHasEdge(job: Job, edges: seq<Option<Edge>>, i: nat)
    requires i < |Cells(job, edges)|
    ensures Cells(job, edges)[i].edge in edges
    ensures Cells(job, edges)[i].variant in VariantsFor(job, Cells(job, edges)[i].edge)
  {
    hide VariantsFor;
    var first := |CellsOf(job, edges[0])|;
    if i >= first { CellHasEdge(job, edges[1..], i - first); }
  }

  /** The axes of the e-th selected edge. */
  ghost function RunAxes(x: Input, e: nat): Axes
    requires Prepared(x).Ok? && e < |Prepared(x).value.1|
  {
    AxesFor(Prepared(x).value.0.axes, Prepared(x).value.0.byEdge, Prepared(x).value.1[e])
  }

  lemma KeptChoiceIsFilled(x: Input, e: nat, at: seq<nat>)
    requires Prepared(x).Ok? && Compiled(x).Ok?
    requires e < |Prepared(x).value.1|
    requires var axes := RunAxes(x, e); Choice(SortedNames(axes.Keys), axes, at)
    ensures var (job, edges) := Prepared(x).value;
            var axes := RunAxes(x, e);
            forall v | Picks(v, SortedNames(axes.Keys), axes, at) && Kept(v, FiltersOf(job.included), FiltersOf(job.excluded)) ::
              exists r | r in Compiled(x).value :: r.draft.edge == edges[e] && r.draft.variant == v
  {
    hide Prepared, Compiled, Kept, Cells, Product, Materialized, StrLess, Position;
    PlanIsTheGrid(x);
    var (job, edges) := Prepared(x).value;
    var axes := AxesFor(job.axes, job.byEdge, edges[e]);
    var names := SortedNames(axes.Keys);
    var w, i := ExpandedHasChoice(axes, FiltersOf(job.included), FiltersOf(job.excluded), at);
    forall v | Picks(v, names, axes, at) && Kept(v, FiltersOf(job.included), FiltersOf(job.excluded))
      ensures exists r | r in Compiled(x).value :: r.draft.edge == edges[e] && r.draft.variant == v
    {
      PicksDetermine(v, w, names, axes, at);
      var k := |Filter(Product(names, axes)[..i], u => Kept(u, FiltersOf(job.included), FiltersOf(job.excluded)))|;
      CellAt(job, edges, e, k);
      var run := Compiled(x).value[|Cells(job, edges[..e])| + k];
      assert run in Compiled(x).value && run.draft.edge == edges[e] && run.draft.variant == v;
    }
  }

  lemma PicksDetermine(v: Assignment, w: Assignment, names: seq<string>, axes: Axes, at: seq<nat>)
    requires (forall n | n in names :: n in axes) && Choice(names, axes, at)
    requires Picks(v, names, axes, at) && Picks(w, names, axes, at)
    ensures v == w
  {
    forall n | n in v ensures v[n] == w[n] {
      var j :| 0 <= j < |names| && names[j] == n;
    }
  }

  lemma RunIsAChoice(x: Input, i: nat) returns (at: seq<nat>)
    requires Compiled(x).Ok? && i < |Compiled(x).value|
    ensures Prepared(x).Ok?
    ensures var (job, edges) := Prepared(x).value;
            var d := Compiled(x).value[i].draft;
            var axes := AxesFor(job.axes, job.byEdge, d.edge);
            && d.edge in edges && Choice(SortedNames(axes.Keys), axes, at)
            && Picks(d.variant, SortedNames(axes.Keys), axes, at) && Kept(d.variant, FiltersOf(job.included), FiltersOf(job.excluded))
  {
    hide Prepared, Compiled, Kept, Cells, Product, Materialized, StrLess, Expanded;
    PlanIsTheGrid(x);
    var (job, edges) := Prepared(x).value;
    CellHasEdge(job, edges, i);
    var d := Compiled(x).value[i].draft;
    var k :| 0 <= k < |VariantsFor(job, d.edge)| && VariantsFor(job, d.edge)[k] == d.variant;
    at := ExpandedOnlyChoices(AxesFor(job.axes, job.byEdge, d.edge), FiltersOf(job.included), FiltersOf(job.excluded), k);
  }

  // ---------------------------------------------------------------- selected edges

  /** A named edge that some phase refers to is selected after exactly the referenced edges before it in the graph. */
  lemma ReferencedEdgesKeepGraphOrder(specs: seq<PhaseSpec>, named: seq<Edge>, names: set<string>, i: nat)
    requires SelectedEdges(specs, named, names).Ok? && i < |named| && named[i].name in RefNames(specs)
    ensures var before, edges := |Chosen(named[..i], RefNames(specs))|, SelectedEdges(specs, named, names).value;
            before < |edges| && edges[before] == Some(named[i])
  {
    hide RefNames;
    FilterKeepsOrder(named, i, (e: Edge) => e.name in RefNames(specs));
  }

  /** Nothing else is selected; without any reference the one run has no edge. */
  lemma OnlyReferencedEdges(specs: seq<PhaseSpec>, named: seq<Edge>, names: set<string>)
    requires SelectedEdges(specs, named, names).Ok?
    ensures var edges := SelectedEdges(specs, named, names).value;
            if RefNames(specs) == {} then edges == [None]
            else forall e | e in edges :: e.Some? && e.value in named && e.value.name in RefNames(specs)
  {
    hide RefNames;
    assert forall e | e in Chosen(named, RefNames(specs)) :: e in named && e.name in RefNames(specs);
  }

  // ---------------------------------------------------------------- global axes

  /** The values that are written for an axis: a list, or a single one. */
  function ValuesOf(v: Value): seq<Value> {
    match v
    case List(items) => items
    case _ => [v]
  }

  /** The values of the last entry whose name trims to n. */
  function LastNamed(raw: RawAxes, n: string): Option<seq<Value>> {
    if raw == [] then None
    else
      var later := LastNamed(raw[1..], n);
      if later.Some? then later else if Trim(raw[0].0) == n then Some(ValuesOf(raw[0].1)) else None
  }

  /** The values of the first entry whose name trims to n. */
  function FirstNamed(raw: RawAxes, n: string): Option<seq<Value>> {
    if raw == [] then None
    else if Trim(raw[0].0) == n then Some(ValuesOf(raw[0].1))
    else FirstNamed(raw[1..], n)
  }

  ghost predicate ProperEntries(raw: RawAxes) {
    forall i | 0 <= i < |raw| :: Trim(raw[i].0) != "" && AxisValues(raw[i].1) != []
  }

  lemma {:induction false} AxesAcceptedExactly(known: Axes, raw: RawAxes)
    ensures AxesFrom(known, raw).Ok? <==> ProperEntries(raw)
    decreases |raw|
  {
    if raw != [] {
      AxesAcceptedExactly(known[Trim(raw[0].0) := AxisValues(raw[0].1)], raw[1..]);
      assert raw == [raw[0]] + raw[1..];
    }
  }

  lemma {:induction false} AxisAt(known: Axes, raw: RawAxes, n: string)
    requires AxesFrom(known, raw).Ok?
    ensures Lookup(AxesFrom(known, raw).value, n) == if LastNamed(raw, n).Some? then LastNamed(raw, n) else Lookup(known, n)
    decreases |raw|
  {
    if raw != [] { AxisAt(known[Trim(raw[0].0) := AxisValues(raw[0].1)], raw[1..], n); }
  }

  function Lookup(axes: Axes, n: string): Option<seq<Value>> {
    if n in axes then Some(axes[n]) else None
  }

  lemma {:induction false} SelectionAt(known: Axes, raw: RawAxes, n: string)
    requires SelectionsFrom(known, raw).Ok?
    ensures Lookup(SelectionsFrom(known, raw).value, n)
         == if n in known || n == "" then Lookup(known, n) else FirstNamed(raw, n)
    decreases |raw|
  {
    if raw != [] {
      var axis, values := Trim(raw[0].0), AxisValues(raw[0].1);
      SelectionAt(if axis == "" || axis in known then known else known[axis := values], raw[1..], n);
    }
  }

  /** A name that the axes leave free and whose first selection has no values. */
  ghost predicate EmptySelection(known: Axes, raw: RawAxes, n: string) {
    n != "" && n !in known && FirstNamed(raw, n) == Some([])
  }

  lemma {:induction false} SelectionsAcceptedExactly(known: Axes, raw: RawAxes)
    ensures SelectionsFrom(known, raw).Ok? <==> forall n :: !EmptySelection(known, raw, n)
    decreases |raw|
  {
    if raw != [] {
      var axis, values := Trim(raw[0].0), AxisValues(raw[0].1);
      if axis != "" && axis !in known && values == [] {
        assert EmptySelection(known, raw, axis);
      } else {
        var next := if axis == "" || axis in known then known else known[axis := values];
        SelectionsAcceptedExactly(next, raw[1..]);
        forall n ensures EmptySelection(known, raw, n) == EmptySelection(next, raw[1..], n) {}
        assert SelectionsFrom(known, raw) == SelectionsFrom(next, raw[1..]);
        hide EmptySelection, SelectionsFrom;
      }
    }
  }

  /** The global axis of a name: its last exploration entry, or else its first selection. */
  lemma GlobalAxisExactly(exploration: Field<Explored>, selections: Field<RawAxes>, n: string)
    requires GlobalAxes(exploration, selections).Ok?
    ensures ExploredAxes(exploration).Ok?
    ensures var raw := ExploredAxes(exploration).value;
      Lookup(GlobalAxes(exploration, selections).value, n)
      == if LastNamed(raw, n).Some? then LastNamed(raw, n)
         else if n == "" then None else FirstNamed(EntriesOf(selections), n)
  {
    var raw := ExploredAxes(exploration).value;
    var explored := AxesFrom(map[], raw).value;
    AxisAt(map[], raw, n);
    AxisAt(map[], raw, "");
    AxesAcceptedExactly(map[], raw);
    NoBlankName(raw);
    SelectionAt(explored, EntriesOf(selections), n);
  }

  lemma {:induction false} NoBlankName(raw: RawAxes)
    requires ProperEntries(raw)
    ensures LastNamed(raw, "").None?
  {
    if raw != [] {
      assert raw[1..] == raw[1..] && forall i | 0 <= i < |raw[1..]| :: raw[1..][i] == raw[i + 1];
      NoBlankName(raw[1..]);
    }
  }

  /** No exploration entry has this name, and the first selection that has it has no values. */
  ghost predicate Unfilled(raw: RawAxes, selections: RawAxes, n: string) {
    n != "" && LastNamed(raw, n).None? && FirstNamed(selections, n) == Some([])
  }

  /** The axes are refused exactly for values of the wrong kind, a blank exploration name, an exploration axis
      without values, or a free name whose first selection has none. */
  lemma GlobalAxesAcceptedExactly(exploration: Field<Explored>, selections: Field<RawAxes>)
    ensures GlobalAxes(exploration, selections).Ok? <==>
      && ExploredAxes(exploration).Ok? && ProperEntries(ExploredAxes(exploration).value) && !selections.Wrong?
      && forall n :: !Unfilled(ExploredAxes(exploration).value, EntriesOf(selections), n)
  {
    if ExploredAxes(exploration).Ok? {
      var raw := ExploredAxes(exploration).value;
      AxesAcceptedExactly(map[], raw);
      if ProperEntries(raw) {
        var explored := AxesFrom(map[], raw).value;
        SelectionsAcceptedExactly(explored, EntriesOf(selections));
        forall n
          ensures EmptySelection(explored, EntriesOf(selections), n) == Unfilled(raw, EntriesOf(selections), n)
        {
          AxisAt(map[], raw, n);
        }
        hide EmptySelection, Unfilled;
      }
    }
  }

  // ---------------------------------------------------------------- axes of edge groups

  /** A group that gives these axes to this edge. */
  ghost predicate Gives(g: Option<EdgeGroup>, edge: string, axes: Axes) {
    g.Some? && g.value.edgeRefs.Given? && edge in g.value.edgeRefs.value && g.value.exploration.Given?
    && OwnAxes(g.value.exploration.value) == Ok(axes)
  }

  ghost predicate GivenBy(groups: Entries<EdgeGroup>, edge: string, axes: Axes) {
    exists g | g in groups :: Gives(g, edge, axes)
  }

  lemma {:induction false} AssignedAxes(known: EdgeAxes, refs: seq<string>, axes: Axes, edge: string)
    requires AssignAxes(known, refs, axes).Ok?
    ensures var r := AssignAxes(known, refs, axes).value;
      && (edge in r <==> edge in known || edge in refs)
      && (edge in refs ==> r[edge] == axes)
      && (edge in known ==> r[edge] == known[edge])
    decreases |refs|
  {
    if refs != [] { AssignedAxes(known[refs[0] := axes], refs[1..], axes, edge); }
  }

  /** The edge has exactly these axes. */
  predicate Has(byEdge: EdgeAxes, edge: string, axes: Axes) {
    edge in byEdge && byEdge[edge] == axes
  }

  lemma GroupGives(known: EdgeAxes, g: Option<EdgeGroup>, edge: string, axes: Axes)
    requires GroupAxes(known, g).Ok?
    ensures Has(GroupAxes(known, g).value, edge, axes) <==> Has(known, edge, axes) || Gives(g, edge, axes)
  {
    hide AssignAxes, OwnAxes;
    if g.value.exploration.Given? {
      AssignedAxes(known, g.value.edgeRefs.value, OwnAxes(g.value.exploration.value).value, edge);
    }
  }

  lemma {:induction false} GroupsGive(known: EdgeAxes, groups: Entries<EdgeGroup>, edge: string, axes: Axes)
    requires GroupsAxes(known, groups).Ok?
    ensures Has(GroupsAxes(known, groups).value, edge, axes) <==> Has(known, edge, axes) || GivenBy(groups, edge, axes)
    decreases |groups|
  {
    hide GroupAxes, Gives, Has;
    if groups != [] {
      GroupGives(known, groups[0], edge, axes);
      GroupsGive(GroupAxes(known, groups[0]).value, groups[1..], edge, axes);
      GivenByHeadOrTail(groups, edge, axes);
    }
  }

  lemma GivenByHeadOrTail(groups: Entries<EdgeGroup>, edge: string, axes: Axes)
    requires groups != []
    ensures GivenBy(groups, edge, axes) <==> Gives(groups[0], edge, axes) || GivenBy(groups[1..], edge, axes)
  {
    hide Gives;
    assert groups == [groups[0]] + groups[1..] && groups[0] in groups;
  }

  /** An accepted edge has exactly the axes that its groups give it, however many groups name it and in
      whatever order; an edge no group gives axes keeps the global ones. */
  lemma EdgeAxesAreTheGroups(groups: Field<Entries<EdgeGroup>>, edge: string, axes: Axes)
    requires AxesByEdge(groups).Ok?
    ensures Has(AxesByEdge(groups).value, edge, axes) <==> groups.Given? && GivenBy(groups.value, edge, axes)
  {
    if groups.Given? { GroupsGive(map[], groups.value, edge, axes); }
  }

  // ---------------------------------------------------------------- where actions are aimed

  ghost predicate Within(actions: seq<Action>, nodes: seq<Node>) {
    forall a | a in actions :: TargetsOf(a) <= VmNames(nodes)
  }

  lemma ActionsStayWithin(action: Value, ctx: Context, scopes: Templates.Scopes)
    requires ActionResult(action, ctx, scopes).Ok?
    ensures Within(ActionResult(action, ctx, scopes).value, ctx.nodes)
  {
    hide Normalized, Targeted, TargetsOf, VmNames, Canonical;
    var raw := Templates.Render(action, scopes, ctx.cat.show).value.m;
    NormalizedIsCanonical(raw, ctx.nodes, ctx.cat);
    var normal := Normalized(raw, ctx.nodes, ctx.cat).value;
    CollectMember(normal, Retarget(ctx));
    forall b | b in Collect(normal, Retarget(ctx)).value ensures TargetsOf(b) <= VmNames(ctx.nodes) {
      var a :| a in normal && Retarget(ctx)(a).Ok? && b in Retarget(ctx)(a).value;
      TargetedStaysWithin(a, ctx.nodes, ctx.cat.show);
    }
  }

  lemma PhasesStayWithin(specs: seq<PhaseSpec>, ctx: Context, variant: Assignment, edge: Option<Edge>)
    requires Materialized(specs, ctx, variant, edge).Ok?
    ensures forall p | p in Materialized(specs, ctx, variant, edge).value :: Within(p.actions, ctx.nodes)
  {
    hide ActionResult, TargetsOf, VmNames;
    CollectMember(specs, PhaseStep(ctx, variant, edge));
    forall p | p in Materialized(specs, ctx, variant, edge).value ensures Within(p.actions, ctx.nodes) {
      var s :| s in specs && PhaseStep(ctx, variant, edge)(s).Ok? && p in PhaseStep(ctx, variant, edge)(s).value;
      var step := ActionStep(ctx, ScopesOf(variant, edge));
      CollectMember(s.actions, step);
      forall a | a in p.actions ensures TargetsOf(a) <= VmNames(ctx.nodes) {
        var raw :| raw in s.actions && step(raw).Ok? && a in step(raw).value;
        ActionsStayWithin(raw, ctx, ScopesOf(variant, edge));
      }
    }
  }

  /** Every target of every action of a compiled plan is a VM node of the scenario. */
  lemma PlanTargetsExist(x: Input)
    requires Compiled(x).Ok?
    ensures forall r | r in Compiled(x).value :: forall p | p in r.draft.phases :: Within(p.actions, x.ctx.nodes)
  {
    hide Compiled, Materialized, Within, Cells;
    PlanIsTheGrid(x);
    ContextIsKept(x);
    var (job, edges) := Prepared(x).value;
    forall r | r in Compiled(x).value ensures forall p | p in r.draft.phases :: Within(p.actions, x.ctx.nodes) {
      var i :| 0 <= i < |Compiled(x).value| && Compiled(x).value[i] == r;
      PhasesStayWithin(job.specs, job.ctx, Cells(job, edges)[i].variant, Cells(job, edges)[i].edge);
    }
  }

  lemma ContextIsKept(x: Input)
    requires Prepared(x).Ok?
    ensures Prepared(x).value.0.ctx == x.ctx
  {
  }
}
