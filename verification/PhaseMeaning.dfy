/** What the extracted phases, templates and edges say, in terms of the entries they were written as. */
module PhaseMeaning {
  import opened Values
  import opened Sequences
  import opened Templates
  import opened Targeting
  import opened PhaseSpecs

  // ---------------------------------------------------------------- templates

  /** The actions of the last entry with this name; without a list it has none. */
  function WrittenActions(raw: Entries<RawTemplate>, n: string): Option<seq<Value>> {
    if raw == [] then None
    else
      var later := WrittenActions(raw[1..], n);
      if later.Some? then later
      else if raw[0].Some? && raw[0].value.name == n && n != "" then
        Some(if raw[0].value.actions.List? then raw[0].value.actions.items else [])
      else None
  }

  /** Templates are known by the names of the entries, and the last entry of a name gives the actions. */
  lemma {:induction false} TemplatesAsWritten(known: map<string, Template>, raw: Entries<RawTemplate>, n: string)
    requires TemplatesFrom(known, raw).Ok?
    ensures var templates, written := TemplatesFrom(known, raw).value, WrittenActions(raw, n);
      && (n in templates <==> n in known || written.Some?)
      && (written.Some? ==> templates[n].actions == written.value)
      && (written.None? && n in known ==> templates[n] == known[n])
    decreases |raw|
  {
    if raw != [] { TemplatesAsWritten(AddedTemplate(known, raw[0]).value, raw[1..], n); }
  }

  // ---------------------------------------------------------------- edges

  /** The edge stands for this entry of the graph: placeholders read its name and its two ends, and under any other key
      what the entry holds there. */
  ghost predicate StandsFor(edge: Edge, raw: RawEdge) {
    && edge.name == raw.name
    && Get(edge.values, "name") == Str(raw.name)
    && Get(edge.values, "from") == Str(raw.from)
    && Get(edge.values, "to") == Str(raw.to)
    && edge.values.Keys == raw.extra.Keys + {"name", "from", "to"}
    && forall k | k in raw.extra && k !in {"name", "from", "to"} :: edge.values[k] == raw.extra[k]
  }

  /** The entry has two ends that are nodes of the scenario, if it names any. */
  predicate Connected(raw: Option<RawEdge>, nodes: set<string>) {
    && raw.Some? && raw.value.from != "" && raw.value.to != ""
    && (nodes != {} ==> raw.value.from in nodes && raw.value.to in nodes)
  }

  function NamedEntries(raw: Entries<RawEdge>): Entries<RawEdge> {
    Filter(raw, (e: Option<RawEdge>) => e.Some? && e.value.name != "")
  }

  ghost predicate StandFor(edges: seq<Edge>, raw: Entries<RawEdge>) {
    |edges| == |raw| && forall i | 0 <= i < |edges| :: raw[i].Some? && StandsFor(edges[i], raw[i].value)
  }

  ghost predicate DistinctNames(raw: Entries<RawEdge>) {
    forall i, j | 0 <= i < j < |raw| && raw[i].Some? && raw[j].Some? && raw[i].value.name == raw[j].value.name ::
      raw[i].value.name == ""
  }

  /** The edges of a graph are accepted exactly when every entry has its two ends and no name is used twice; they then
      stand for the named entries, in graph order. */
  lemma {:induction false} EdgesAsWritten(raw: Entries<RawEdge>, nodes: set<string>)
    ensures EdgesFrom(raw, nodes).Ok? <==> (forall e | e in raw :: Connected(e, nodes)) && DistinctNames(raw)
    ensures EdgesFrom(raw, nodes).Ok? ==> StandFor(EdgesFrom(raw, nodes).value, NamedEntries(raw))
  {
    if raw != [] {
      var before, last := raw[..|raw| - 1], raw[|raw| - 1];
      EdgesAsWritten(before, nodes);
      assert raw == before + [last];
      DistinctStep(before, last);
      hide EdgesFrom;
      assert EdgesFrom(raw, nodes) == if EdgesFrom(before, nodes).Err? then EdgesFrom(before, nodes)
        else AddedEdge(EdgesFrom(before, nodes).value, last, nodes) by { EdgesUnfold(raw, nodes); }
      if EdgesFrom(before, nodes).Ok? { AddedExactly(EdgesFrom(before, nodes).value, before, last, nodes); }
      hide Connected, DistinctNames, StandFor, AddedEdge;
      assert (forall e | e in raw :: Connected(e, nodes)) <==>
        (forall e | e in before :: Connected(e, nodes)) && Connected(last, nodes);
    }
  }

  lemma EdgesUnfold(raw: Entries<RawEdge>, nodes: set<string>)
    requires raw != []
    ensures var before := EdgesFrom(raw[..|raw| - 1], nodes);
      EdgesFrom(raw, nodes) == if before.Err? then before else AddedEdge(before.value, raw[|raw| - 1], nodes)
  {
  }

  /** This entry has a name of its own, or none. */
  ghost predicate FreshName(raw: Entries<RawEdge>, last: Option<RawEdge>) {
    last.Some? && last.value.name != "" ==> forall e | e in raw :: e.Some? ==> e.value.name != last.value.name
  }

  lemma AddedExactly(edges: seq<Edge>, before: Entries<RawEdge>, last: Option<RawEdge>, nodes: set<string>)
    requires StandFor(edges, NamedEntries(before))
    ensures AddedEdge(edges, last, nodes).Ok? <==> Connected(last, nodes) && FreshName(before, last)
    ensures AddedEdge(edges, last, nodes).Ok? ==>
      StandFor(AddedEdge(edges, last, nodes).value, NamedEntries(before + [last]))
  {
    hide StandsFor, NamedEntries;
    if Connected(last, nodes) {
      if last.value.name != "" {
        NamedAlready(edges, before, last.value.name);
        NamedStandsFor(last.value);
      }
      NamedAppend(before, last);
    }
  }

  lemma NamedAppend(before: Entries<RawEdge>, last: Option<RawEdge>)
    ensures NamedEntries(before + [last])
         == NamedEntries(before) + if last.Some? && last.value.name != "" then [last] else []
  {
    FilterAppend(before, [last], (e: Option<RawEdge>) => e.Some? && e.value.name != "");
  }

  /** Why a graph is refused: the error names what is wrong with one of its entries. */
  lemma {:induction false} EdgeRefusalIsJustified(raw: Entries<RawEdge>, nodes: set<string>)
    requires EdgesFrom(raw, nodes).Err?
    ensures match EdgesFrom(raw, nodes).error
      case WrongKind => None in raw
      case EdgeEndpointMissing => exists e | e in raw :: e.Some? && (e.value.from == "" || e.value.to == "")
      case EdgeEndpointUnknown =>
        nodes != {} && exists e | e in raw :: e.Some? && (e.value.from !in nodes || e.value.to !in nodes)
      case DuplicateEdgeName => !DistinctNames(raw)
      case _ => false
  {
    var before, last := raw[..|raw| - 1], raw[|raw| - 1];
    assert raw == before + [last];
    DistinctStep(before, last);
    if EdgesFrom(before, nodes).Err? {
      EdgeRefusalIsJustified(before, nodes);
    } else {
      EdgesAsWritten(before, nodes);
      if Connected(last, nodes) { AddedExactly(EdgesFrom(before, nodes).value, before, last, nodes); }
    }
    hide DistinctNames, StandFor, FreshName;
  }

  lemma NamedStandsFor(raw: RawEdge)
    ensures StandsFor(Named(raw), raw)
  {
  }

  lemma DistinctStep(before: Entries<RawEdge>, last: Option<RawEdge>)
    ensures DistinctNames(before + [last]) <==> DistinctNames(before) && FreshName(before, last)
  {
    var raw := before + [last];
    assert forall i | 0 <= i < |before| :: raw[i] == before[i];
    if DistinctNames(raw) && last.Some? && last.value.name != "" {
      forall e | e in before && e.Some? ensures e.value.name != last.value.name {
        var i :| 0 <= i < |before| && before[i] == e;
        assert raw[i] == e && raw[|before|] == last;
      }
    }
  }

  lemma NamedAlready(edges: seq<Edge>, raw: Entries<RawEdge>, name: string)
    requires StandFor(edges, NamedEntries(raw)) && name != ""
    ensures HasEdge(edges, name) <==> exists e | e in raw :: e.Some? && e.value.name == name
  {
    hide StandsFor;
    var kept := NamedEntries(raw);
    forall i | 0 <= i < |edges| ensures edges[i].name == kept[i].value.name { SameName(edges[i], kept[i].value); }
    if e :| e in edges && e.name == name {
      var i :| 0 <= i < |edges| && edges[i] == e;
      assert kept[i] in kept;
    }
    if e :| e in raw && e.Some? && e.value.name == name {
      assert e in kept;
      var j :| 0 <= j < |kept| && kept[j] == e;
      assert edges[j] in edges;
    }
  }

  lemma SameName(edge: Edge, raw: RawEdge)
    requires StandsFor(edge, raw)
    ensures edge.name == raw.name
  {
  }

  // ---------------------------------------------------------------- phase entries

  /** An edge group lists its edges and has phases. */
  predicate Complete(g: Option<EdgeGroup>) {
    g.Some? && g.value.edgeRefs.Given? && g.value.edgeRefs.value != [] && g.value.phases.Given?
  }

  /** The entry is a phase of this group, bound to the group's edges unless it says something about edges itself. */
  ghost predicate PhaseOfGroup(entry: Option<RawPhase>, g: Option<EdgeGroup>) {
    Complete(g) && exists p | p in g.value.phases.value ::
      if p.Some? && p.value.edgeRefs.Absent? then entry == Some(p.value.(edgeRefs := Given(g.value.edgeRefs.value)))
      else entry == p
  }

  lemma GroupEntriesAsWritten(g: Option<EdgeGroup>)
    ensures GroupEntries(g).Ok? <==> Complete(g)
    ensures GroupEntries(g).Ok? ==> forall e :: e in GroupEntries(g).value <==> PhaseOfGroup(e, g)
  {
    if Complete(g) {
      var phases, all := g.value.phases.value, GroupEntries(g).value;
      forall e | PhaseOfGroup(e, g) ensures e in all {
        var p :| p in phases && if p.Some? && p.value.edgeRefs.Absent?
          then e == Some(p.value.(edgeRefs := Given(g.value.edgeRefs.value))) else e == p;
        var i :| 0 <= i < |phases| && phases[i] == p;
        assert all[i] == e;
      }
      forall e | e in all ensures PhaseOfGroup(e, g) {
        var i :| 0 <= i < |all| && all[i] == e;
        assert phases[i] in phases;
      }
    }
  }

  /** The phases of an experiment are its own, followed by those of its edge groups; they are refused exactly when
      only a retired field has them, a field is of the wrong kind, or a group is incomplete. */
  lemma EntriesAsWritten(phases: Field<Entries<RawPhase>>, groups: Field<Entries<EdgeGroup>>, legacy: bool)
    ensures PhaseEntries(phases, groups, legacy).Ok? <==>
      && !(phases.Absent? && groups.Absent? && legacy) && !phases.Wrong? && !groups.Wrong?
      && (groups.Given? ==> forall g | g in groups.value :: Complete(g))
    ensures PhaseEntries(phases, groups, legacy).Ok? ==>
      var own, all := if phases.Given? then phases.value else [], PhaseEntries(phases, groups, legacy).value;
      && own <= all
      && forall e :: e in all[|own|..] <==> groups.Given? && exists g | g in groups.value :: PhaseOfGroup(e, g)
  {
    hide GroupEntries, Complete, PhaseOfGroup;
    forall g: Option<EdgeGroup> { GroupEntriesAsWritten(g); }
    if groups.Given? {
      CollectError(groups.value, GroupEntries);
      if Collect(groups.value, GroupEntries).Ok? { CollectMember(groups.value, GroupEntries); }
    }
  }

  // ---------------------------------------------------------------- phase specifications

  /** The specification says what its entry says: the entry's name or its template's, its own mode, its own actions or
      else those of its template, and the edges it names. */
  ghost predicate Says(spec: PhaseSpec, entry: RawPhase, position: string, templates: map<string, Template>) {
    && spec.name == (if entry.name != "" then entry.name
                     else if entry.useTemplate != "" then entry.useTemplate else position)
    && spec.mode == (if Trim(entry.mode) != "" then Trim(entry.mode) else "sequential")
    && spec.template == entry.useTemplate
    && (entry.actions.List? ==> spec.actions == entry.actions.items)
    && (!entry.actions.List? ==> entry.useTemplate in templates && spec.actions == templates[entry.useTemplate].actions)
    && (entry.edgeRefs.Absent? <==> spec.edgeRefs.None?)
    && (entry.edgeRefs.Given? ==>
          && spec.edgeRefs.Some? && Distinct(spec.edgeRefs.value)
          && forall n :: n in spec.edgeRefs.value <==> n in entry.edgeRefs.value)
  }

  /** The actions an entry has, when it has any. */
  function WrittenPhaseActions(entry: RawPhase, templates: map<string, Template>): seq<Value> {
    if entry.actions.List? then entry.actions.items
    else if entry.useTemplate in templates then templates[entry.useTemplate].actions
    else []
  }

  /** What an entry has to be for its phase to be accepted: its template exists, it has actions, which are objects, its
      edges are named edges of the graph, and it has some if an edge placeholder occurs in an action. */
  ghost predicate Acceptable(entry: RawPhase, templates: map<string, Template>, named: set<string>) {
    var actions := WrittenPhaseActions(entry, templates);
    && (entry.useTemplate != "" ==> entry.useTemplate in templates) && !entry.hasSteps
    && (entry.actions.List? || entry.actions.Null?) && actions != [] && (forall a | a in actions :: a.Dict?)
    && (entry.edgeRefs.Absent? || (entry.edgeRefs.Given? && entry.edgeRefs.value != []
          && forall n | n in entry.edgeRefs.value :: n != "" && n in named))
    && (ReadsEdge(actions) ==> entry.edgeRefs.Given?)
  }

  /** An edge placeholder occurs in an action. */
  ghost predicate ReadsEdge(actions: seq<Value>) {
    exists a, r | a in actions && Occurs(r, a) :: r.scope == FromEdge
  }

  lemma UsesEdgeExactly(actions: seq<Value>)
    ensures UsesEdge(actions) <==> ReadsEdge(actions)
  {
    hide Occurs, ContainsEdge;
    forall a | a in actions { EdgeCheckExactly(a); }
  }

  lemma SpecAsWritten(raw: Option<RawPhase>, position: string, templates: map<string, Template>, named: set<string>)
    requires ObjectActions(templates) && "" !in templates
    ensures SpecOf(raw, position, templates, named).Ok? <==> raw.Some? && Acceptable(raw.value, templates, named)
    ensures SpecOf(raw, position, templates, named).Ok? ==>
      Says(SpecOf(raw, position, templates, named).value, raw.value, position, templates)
  {
    if raw.Some? {
      UsesEdgeExactly(WrittenPhaseActions(raw.value, templates));
      ActionsAsWritten(raw.value, templates);
      RefsAsWritten(raw.value.edgeRefs);
      ModeAsWritten(raw.value.mode);
      hide UsesEdge, ReadsEdge, ActionsOf, EdgeRefs, WrittenPhaseActions, WrittenMode, Trim, Distinct;
      var entry := raw.value;
      if entry.useTemplate != "" && entry.useTemplate !in templates {
      } else if entry.hasSteps || ActionsOf(entry, templates).Err? || ActionsOf(entry, templates).value == [] {
      } else if EdgeRefs(entry.edgeRefs).Err? {
      }
    }
  }

  /** Why a phase is refused: the error names a check that its entry fails. */
  lemma PhaseRefusalIsJustified(raw: Option<RawPhase>, position: string, templates: map<string, Template>,
      named: set<string>)
    requires SpecOf(raw, position, templates, named).Err? && raw.Some? && ObjectActions(templates) && "" !in templates
    ensures var entry, actions := raw.value, WrittenPhaseActions(raw.value, templates);
      match SpecOf(raw, position, templates, named).error
      case TemplateNotFound => entry.useTemplate != "" && entry.useTemplate !in templates
      case StepsUnsupported => entry.hasSteps
      case WrongKind => (!entry.actions.Null? && !entry.actions.List?) || entry.edgeRefs.Wrong?
      case ActionNotObject => exists a | a in actions :: !a.Dict?
      case EmptyPhase => actions == []
      case EdgeRefsEmpty => entry.edgeRefs == Given([])
      case EdgeRefBlank => entry.edgeRefs.Given? && "" in entry.edgeRefs.value
      case UnknownEdgeRef => entry.edgeRefs.Given? && exists n | n in entry.edgeRefs.value :: n !in named
      case EdgePlaceholderWithoutRefs => entry.edgeRefs.Absent? && ReadsEdge(actions)
      case _ => false
  {
    UsesEdgeExactly(WrittenPhaseActions(raw.value, templates));
    ActionsAsWritten(raw.value, templates);
    RefsAsWritten(raw.value.edgeRefs);
    hide UsesEdge, ReadsEdge, ActionsOf, WrittenPhaseActions, WrittenMode, Trim, Distinct;
  }

  lemma ModeAsWritten(mode: string)
    ensures WrittenMode(mode) == (if Trim(mode) != "" then Trim(mode) else "sequential") && WrittenMode(mode) != ""
  {
    assert Trimmed("sequential");
  }

  lemma ActionsAsWritten(entry: RawPhase, templates: map<string, Template>)
    requires ObjectActions(templates) && "" !in templates
    ensures var actions := WrittenPhaseActions(entry, templates);
      ActionsOf(entry, templates)
      == if entry.actions.Null? then Ok(actions)
         else if !entry.actions.List? then Err(WrongKind)
         else if forall a | a in actions :: a.Dict? then Ok(actions) else Err(ActionNotObject)
    ensures entry.actions.Null? ==> forall a | a in WrittenPhaseActions(entry, templates) :: a.Dict?
    ensures entry.actions.Null? && entry.useTemplate !in templates ==> WrittenPhaseActions(entry, templates) == []
    ensures entry.actions.List? ==> WrittenPhaseActions(entry, templates) == entry.actions.items
    ensures !entry.actions.List? && entry.useTemplate in templates ==>
      WrittenPhaseActions(entry, templates) == templates[entry.useTemplate].actions
  {
  }

  lemma RefsAsWritten(refs: Field<seq<string>>)
    ensures EdgeRefs(refs).Ok? <==>
      refs.Absent? || (refs.Given? && refs.value != [] && forall n | n in refs.value :: n != "")
    ensures EdgeRefs(refs).Ok? ==> (EdgeRefs(refs).value.None? <==> refs.Absent?)
    ensures EdgeRefs(refs).Ok? && refs.Given? ==>
      var names := EdgeRefs(refs).value.value;
      Distinct(names) && forall n :: n in names <==> n in refs.value
  {
  }

  /** The phases are accepted exactly when there is one and every entry is acceptable, and then each says what its entry
      says. */
  lemma SpecsAsWritten(entries: Entries<RawPhase>, templates: map<string, Template>, named: set<string>,
      fallback: nat -> string)
    requires ObjectActions(templates) && "" !in templates
    ensures Specs(entries, templates, named, fallback).Ok? <==>
      entries != [] && forall i | 0 <= i < |entries| :: entries[i].Some? && Acceptable(entries[i].value, templates, named)
    ensures Specs(entries, templates, named, fallback).Ok? ==>
      var specs := Specs(entries, templates, named, fallback).value;
      && |specs| == |entries|
      && forall i: nat | i < |specs| :: entries[i].Some? && Says(specs[i], entries[i].value, fallback(i), templates)
  {
    hide SpecOf, Acceptable, Says;
    var all, step := Numbered(entries), SpecStep(templates, named, fallback);
    forall i: nat | i < |entries| { SpecAsWritten(entries[i], fallback(i), templates, named); }
    CollectError(all, step);
    assert forall i: nat | i < |all| :: all[i] == (i, entries[i]) && all[i] in all;
    forall x | x in all ensures exists i: nat | i < |entries| :: x == (i, entries[i]) {
      var i :| 0 <= i < |all| && all[i] == x;
      assert x == (i, entries[i]);
    }
    if entries != [] && Specs(entries, templates, named, fallback).Ok? { CollectSingles(all, step); }
  }

  lemma {:induction false} CollectSingles(items: seq<(nat, Option<RawPhase>)>,
      f: ((nat, Option<RawPhase>)) -> Result<seq<PhaseSpec>, CompileError>)
    requires Collect(items, f).Ok? && forall x | x in items :: f(x).Ok? ==> |f(x).value| == 1
    ensures |Collect(items, f).value| == |items|
    ensures forall i | 0 <= i < |items| :: f(items[i]).Ok? && f(items[i]).value == [Collect(items, f).value[i]]
  {
    if items != [] { CollectSingles(items[1..], f); }
  }

  lemma {:induction false} TemplateNamesAreNotBlank(known: map<string, Template>, raw: Entries<RawTemplate>)
    requires "" !in known && TemplatesFrom(known, raw).Ok?
    ensures "" !in TemplatesFrom(known, raw).value
    decreases |raw|
  {
    if raw != [] { TemplateNamesAreNotBlank(AddedTemplate(known, raw[0]).value, raw[1..]); }
  }
}
