/** A smallest experiment that compiles, so that the theorems about compiled plans speak of something. */
module SmallestPlan {
  import opened Values
  import opened Ordering
  import opened Sequences
  import opened Templates
  import opened Targeting
  import opened ActionCenter
  import opened Variants
  import opened PhaseSpecs
  import opened PlanCompiler

  const PING: Value := Dict(map["type" := Str("ping")])

  function Smallest(show: Value -> string, duration: Value -> bool): Input {
    Input("e", None, true, true, Absent, Absent, Absent,
          Given([Some(RawPhase("t", "", "", false, Null, Absent))]), Absent, false, false,
          Given([Some(RawTemplate("t", "", false, List([PING])))]), Absent,
          n => "p", Context([], Catalog(map["ping" := Entry(NoTarget, [])], show, duration), v => "r"))
  }

  lemma NothingToFind(s: string)
    requires '$' !in s
    ensures !Search(s) && !SearchEdge(s)
  {
    forall i | 0 <= i < |s| ensures MatchPrefix(s[i..]).None? && ReadRef(FromEdge, s[i..]).None? {
      assert s[i..][0] == s[i];
    }
  }

  lemma PingRenders(scopes: Scopes, show: Value -> string)
    ensures !ContainsEdge(PING) && Render(PING, scopes, show) == Ok(PING)
  {
    hide Search, SearchEdge;
    NothingToFind("ping");
    assert Render(Str("ping"), scopes, show) == Ok(Str("ping"));
    assert forall k | k in PING.m :: PING.m[k] == Str("ping");
    assert Render(PING, scopes, show).value.m == PING.m;
  }

  lemma PingNormalizes(ctx: Context)
    requires ctx.nodes == [] && ctx.cat.entries == map["ping" := Entry(NoTarget, [])]
    ensures Normalized(PING.m, ctx.nodes, ctx.cat).Ok?
    ensures var normal := Normalized(PING.m, ctx.nodes, ctx.cat).value;
            normal != [] && Collect(normal, Retarget(ctx)) == Ok(normal)
  {
    assert Trimmed("ping");
    assert Validated(PING.m, ctx.cat).Ok?;
    var normal := Normalized(PING.m, ctx.nodes, ctx.cat).value;
    assert normal == [Untargeted(Validated(PING.m, ctx.cat).value)];
    hide Validated;
    var a := normal[0];
    assert ParseActionRef(a, ctx.cat.show) == Err(MissingRef);
    assert Targeted(a, ctx.nodes, ctx.cat.show) == Ok([a]);
    assert normal[1..] == [] && [a] + [] == [a];
  }

  lemma PingActs(ctx: Context, scopes: Scopes)
    requires ctx.nodes == [] && ctx.cat.entries == map["ping" := Entry(NoTarget, [])]
    ensures !ContainsEdge(PING)
    ensures ActionResult(PING, ctx, scopes).Ok? && ActionResult(PING, ctx, scopes).value != []
  {
    hide Normalized, Render, Collect;
    PingRenders(scopes, ctx.cat.show);
    PingNormalizes(ctx);
  }

  const TEMPLATES: map<string, Template> := map["t" := Template("sequential", [PING])]
  const SPEC := PhaseSpec("t", "sequential", "t", [PING], None)

  lemma SmallestSpecs(fallback: nat -> string)
    ensures TemplatesFrom(map[], [Some(RawTemplate("t", "", false, List([PING])))]) == Ok(TEMPLATES)
    ensures Specs([Some(RawPhase("t", "", "", false, Null, Absent))], TEMPLATES, {}, fallback) == Ok([SPEC])
  {
    hide ContainsEdge;
    PingRenders(Scopes(map[], None), v => "");
    var raw := [Some(RawTemplate("t", "", false, List([PING])))];
    assert AddedTemplate(map[], raw[0]) == Ok(TEMPLATES);
    assert raw[1..] == [] && TemplatesFrom(TEMPLATES, []) == Ok(TEMPLATES);
    var entry := Some(RawPhase("t", "", "", false, Null, Absent));
    assert WrittenMode("") == "sequential" by { assert Trimmed("sequential"); }
    assert SpecOf(entry, fallback(0), TEMPLATES, {}) == Ok(SPEC);
    var items := Numbered([entry]);
    assert items[1..] == [] && items[0] == (0, entry);
    assert Collect(items, SpecStep(TEMPLATES, {}, fallback)) == Ok([SPEC] + []);
    assert [SPEC] + [] == [SPEC];
  }

  lemma SmallestIsPrepared(x: Input)
    requires x == Smallest(x.ctx.cat.show, x.ctx.cat.duration)
    ensures Prepared(x) == Ok((Job([SPEC], map[], map[], Absent, Absent, x.ctx), [None]))
  {
    hide Specs, TemplatesFrom;
    SmallestSpecs(x.fallback);
    assert PhaseEntries(x.phases, x.groups, x.legacyPhases) == Ok(x.phases.value + []);
    assert x.phases.value + [] == x.phases.value;
    var named: seq<Edge> := [];
    assert NamedEdges(x.graph, NodeNames(x.ctx.nodes)) == Ok(named);
    var names := set e | e in named :: e.name;
    assert names == {};
    assert RefNames([SPEC]) == {};
    assert SelectedEdges([SPEC], named, names) == Ok([None]);
    assert GlobalAxes(x.exploration, x.selections) == Ok(map[]);
    assert PhaseTemplates(x.scenarioPhases, x.templates) == Ok(TEMPLATES);
    assert TEMPLATES != map[] by { assert "t" in TEMPLATES; }
    assert Specs(x.phases.value, TEMPLATES, names, x.fallback) == Ok([SPEC]);
  }

  /** There is an experiment that compiles: one phase, one template, one action without targets. */
  lemma SmallestPlanCompiles(show: Value -> string, duration: Value -> bool)
    ensures Compiled(Smallest(show, duration)).Ok?
  {
    hide ActionResult, Prepared;
    var x := Smallest(show, duration);
    SmallestIsPrepared(x);
    var job := Job([SPEC], map[], map[], Absent, Absent, x.ctx);
    PingActs(x.ctx, ScopesOf(map[], None));
    assert SortedNames({}) == [] by { SortedNamesOfAscending([], {}); }
    var v: Assignment := map[];
    assert Product([], map[]) == [v];
    assert [v][1..] == [];
    assert Filter([v], w => Kept(w, [], [])) == [v] + Filter([], w => Kept(w, [], []));
    assert VariantsFor(job, None) == [v];
    var acts := ActionStep(x.ctx, ScopesOf(v, None));
    assert [PING][1..] == [];
    assert Collect([PING], acts) == Ok(acts(PING).value + []);
    assert [SPEC][1..] == [];
    assert PhaseResult(SPEC, x.ctx, v, None).Ok?;
    assert Collect([SPEC], PhaseStep(x.ctx, v, None)) == Ok(PhaseResult(SPEC, x.ctx, v, None).value + []);
    assert DraftResult(0, v, [SPEC], x.ctx, None).Ok?;
    var items := Numbered([v]);
    assert items[1..] == [] && items[0] == (0, v);
    assert Collect(items, DraftStep([SPEC], x.ctx, None)) == Ok(DraftResult(0, v, [SPEC], x.ctx, None).value + []);
    var edges: seq<Option<Edge>> := [None];
    assert edges[1..] == [];
    assert Collect(edges, EdgeStep(job)) == Ok(EdgeResult(job, None).value + []);
  }
}
