/** Strict normalisation of one action against the action catalog. */
module ActionCenter {
  import opened Values
  import opened Ordering
  import opened Targeting

  datatype TargetMode = NoTarget | Single | Multi

  datatype Entry = Entry(mode: TargetMode, required: seq<string>)

  /** The catalog, Python's `str` on other values than strings, and whether a value is a number >= 0. */
  datatype Catalog = Catalog(entries: map<string, Entry>, show: Value -> string, duration: Value -> bool)

  datatype ActionError =
    | LegacyField | UnknownField | MissingType | UnsupportedType | BadParameters | MissingParameter | BadSeconds
    | PresetRequired | PresetForbidden | TargetsForbidden | RefsForbidden | RefForbidden | RefRequired | RefsRequired
    | BadTarget(error: TargetError)

  type Action = map<string, Value>

  /** The validated part of an action that does not concern its targets. */
  datatype Seed = Seed(kind: string, mode: TargetMode, parameters: map<string, Value>, preset: string)

  function Validated(raw: Action, cat: Catalog): Result<Seed, ActionError> {
    var kind, preset := Trim(Text(Get(raw, "type"), cat.show)), Trim(Text(Get(raw, "preset"), cat.show));
    var params := Get(raw, "parameters");
    if exists k | k in {"action", "execAction", "target", "targets"} :: !Get(raw, k).Blank() then Err(LegacyField)
    else if exists k | k in raw :: k !in {"type", "targetRef", "targetRefs", "preset", "parameters"} then Err(UnknownField)
    else if kind == "" then Err(MissingType)
    else if kind !in cat.entries then Err(UnsupportedType)
    else if !params.Blank() && !params.Dict? then Err(BadParameters)
    else
      var parameters := if params.Dict? then params.m else map[];
      if exists p | p in cat.entries[kind].required :: Get(parameters, p).Blank() then Err(MissingParameter)
      else if kind == "wait" && !cat.duration(Get(parameters, "seconds")) then Err(BadSeconds)
      else if kind == "run_runtime_preset" && preset == "" then Err(PresetRequired)
      else if kind != "run_runtime_preset" && preset != "" then Err(PresetForbidden)
      else Ok(Seed(kind, cat.entries[kind].mode, parameters, preset))
  }

  function WithPreset(action: Action, preset: string): Action {
    if preset == "" then action else action["preset" := Str(preset)]
  }

  function Untargeted(seed: Seed): Action {
    WithPreset(map["type" := Str(seed.kind), "parameters" := Dict(seed.parameters)], seed.preset)
  }

  function Aimed(seed: Seed, name: string): Action {
    WithPreset(map["type" := Str(seed.kind), "targetRef" := RefTo(name), "target" := Str(name),
                   "parameters" := Dict(seed.parameters)], seed.preset)
  }

  function AimedAtAll(seed: Seed, names: seq<string>): Action {
    map["type" := Str(seed.kind), "targetRefs" := List(seq(|names|, i requires 0 <= i < |names| => RefTo(names[i]))),
        "targets" := TextList(names), "parameters" := Dict(seed.parameters)]
  }

  /** The reference a raw `targetRef` value stands for. */
  function OneRef(raw: Value, show: Value -> string): Result<TargetRef, TargetError> {
    ParseActionRef(map["targetRef" := raw], show)
  }

  function ListedRefs(items: seq<Value>, show: Value -> string): seq<Result<TargetRef, TargetError>> {
    seq(|items|, i requires 0 <= i < |items| => OneRef(items[i], show))
  }

  /** What `normalize_action_payload` returns. */
  function Normalized(raw: Action, nodes: seq<Node>, cat: Catalog): Result<seq<Action>, ActionError> {
    var seed := Validated(raw, cat);
    var ref, refs := Get(raw, "targetRef"), Get(raw, "targetRefs");
    if seed.Err? then Err(seed.error)
    else match seed.value.mode
      case NoTarget =>
        if !ref.Blank() || !refs.Blank() then Err(TargetsForbidden) else Ok([Untargeted(seed.value)])
      case Single =>
        if !refs.Blank() then Err(RefsForbidden)
        else if ref.Blank() then Err(RefRequired)
        else
          var names := ResolvedRef(OneRef(ref, cat.show), nodes);
          if names.Err? then Err(BadTarget(names.error))
          else Ok(seq(|names.value|, i requires 0 <= i < |names.value| => Aimed(seed.value, names.value[i])))
      case Multi =>
        if !ref.Blank() then Err(RefForbidden)
        else if !refs.List? || refs.items == [] then Err(RefsRequired)
        else
          var names := ResolvedAll(ListedRefs(refs.items, cat.show), nodes);
          if names.Err? then Err(BadTarget(names.error)) else Ok([AimedAtAll(seed.value, SortedNames(names.value))])
  }

  method NormalizeSingleTarget(seed: Seed, ref: Value, refs: Value, nodes: seq<Node>, show: Value -> string)
    returns (r: Result<seq<Action>, ActionError>)
    ensures r ==
      if !refs.Blank() then Err(RefsForbidden)
      else if ref.Blank() then Err(RefRequired)
      else
        var names := ResolvedRef(OneRef(ref, show), nodes);
        if names.Err? then Err(BadTarget(names.error))
        else Ok(seq(|names.value|, i requires 0 <= i < |names.value| => Aimed(seed, names.value[i])))
  {
    hide Aimed, OneRef, Resolved;
    if !refs.Blank() { return Err(RefsForbidden); }
    if ref.Blank() { return Err(RefRequired); }
    var one := OneRef(ref, show);
    if one.Err? { return Err(BadTarget(one.error)); }
    var names := ResolveTargetRef(one.value, nodes);
    if names.Err? { return Err(BadTarget(names.error)); }
    var expanded: seq<Action> := [];
    for i := 0 to |names.value|
      invariant |expanded| == i && forall j | 0 <= j < i :: expanded[j] == Aimed(seed, names.value[j])
    {
      expanded := expanded + [Aimed(seed, names.value[i])];
    }
    r := Ok(expanded);
    assert expanded == seq(|names.value|, i requires 0 <= i < |names.value| => Aimed(seed, names.value[i]));
  }

  method NormalizeMultiTarget(seed: Seed, ref: Value, refs: Value, nodes: seq<Node>, show: Value -> string)
    returns (r: Result<seq<Action>, ActionError>)
    ensures r ==
      if !ref.Blank() then Err(RefForbidden)
      else if !refs.List? || refs.items == [] then Err(RefsRequired)
      else
        var names := ResolvedAll(ListedRefs(refs.items, show), nodes);
        if names.Err? then Err(BadTarget(names.error)) else Ok([AimedAtAll(seed, SortedNames(names.value))])
  {
    if !ref.Blank() { return Err(RefForbidden); }
    if !refs.List? || refs.items == [] { return Err(RefsRequired); }
    var names := ResolveRefs(ListedRefs(refs.items, show), nodes);
    if names.Err? { return Err(BadTarget(names.error)); }
    r := Ok([AimedAtAll(seed, SortedNames(names.value))]);
  }

  method NormalizeActionPayload(raw: Action, nodes: seq<Node>, cat: Catalog)
    returns (r: Result<seq<Action>, ActionError>)
    ensures r == Normalized(raw, nodes, cat)
  {
    var seed := Validated(raw, cat);
    if seed.Err? { return Err(seed.error); }
    var ref, refs := Get(raw, "targetRef"), Get(raw, "targetRefs");
    match seed.value.mode {
      case NoTarget =>
        r := if !ref.Blank() || !refs.Blank() then Err(TargetsForbidden) else Ok([Untargeted(seed.value)]);
      case Single => r := NormalizeSingleTarget(seed.value, ref, refs, nodes, cat.show);
      case Multi => r := NormalizeMultiTarget(seed.value, ref, refs, nodes, cat.show);
    }
  }

  // ---------------------------------------------------------------- what normalisation keeps and decides

  /** The action carries the type and the parameters of the raw one, and its preset unless it lists targets. */
  ghost predicate CarriesOver(a: Action, raw: Action, show: Value -> string) {
    && Get(a, "type") == Str(Trim(Text(Get(raw, "type"), show)))
    && Get(a, "parameters") == (if Get(raw, "parameters").Dict? then Get(raw, "parameters") else Dict(map[]))
    && (Get(a, "targets").Null? ==>
          var preset := Trim(Text(Get(raw, "preset"), show));
          Get(a, "preset") == if preset == "" then Null else Str(preset))
    && a.Keys <= {"type", "parameters", "preset", "target", "targetRef", "targets", "targetRefs"}
  }

  lemma NormalizedCarriesOver(raw: Action, nodes: seq<Node>, cat: Catalog)
    requires Normalized(raw, nodes, cat).Ok?
    ensures forall a | a in Normalized(raw, nodes, cat).value :: CarriesOver(a, raw, cat.show)
  {
    hide Validated, ResolvedRef, ResolvedAll, OneRef, CarriesOver, Untargeted, Aimed, AimedAtAll, StrLess;
    var seed, actions := Validated(raw, cat).value, Normalized(raw, nodes, cat).value;
    forall i | 0 <= i < |actions| ensures CarriesOver(actions[i], raw, cat.show) {
      match seed.mode
      case NoTarget => UntargetedCarriesOver(seed, raw, cat);
      case Single =>
        AimedCarriesOver(seed, ResolvedRef(OneRef(Get(raw, "targetRef"), cat.show), nodes).value[i], raw, cat);
      case Multi =>
        var names := ResolvedAll(ListedRefs(Get(raw, "targetRefs").items, cat.show), nodes).value;
        AimedAtAllCarriesOver(seed, SortedNames(names), raw, cat);
    }
  }

  lemma UntargetedCarriesOver(seed: Seed, raw: Action, cat: Catalog)
    requires Validated(raw, cat) == Ok(seed)
    ensures CarriesOver(Untargeted(seed), raw, cat.show)
  {
    ValidatedCarriesOver(raw, cat);
    hide Validated, Trim, Text;
  }

  lemma AimedCarriesOver(seed: Seed, n: string, raw: Action, cat: Catalog)
    requires Validated(raw, cat) == Ok(seed)
    ensures CarriesOver(Aimed(seed, n), raw, cat.show)
  {
    ValidatedCarriesOver(raw, cat);
    hide Validated, Trim, Text, RefTo;
  }

  lemma AimedAtAllCarriesOver(seed: Seed, names: seq<string>, raw: Action, cat: Catalog)
    requires Validated(raw, cat) == Ok(seed)
    ensures CarriesOver(AimedAtAll(seed, names), raw, cat.show)
  {
    ValidatedCarriesOver(raw, cat);
    var a := AimedAtAll(seed, names);
    assert Get(a, "targets") == TextList(names) && TextList(names).List?;
    hide Validated, Trim, Text, RefTo, TextList;
  }

  lemma ValidatedCarriesOver(raw: Action, cat: Catalog)
    requires Validated(raw, cat).Ok?
    ensures var seed := Validated(raw, cat).value;
      && seed.kind == Trim(Text(Get(raw, "type"), cat.show)) && seed.preset == Trim(Text(Get(raw, "preset"), cat.show))
      && Dict(seed.parameters) == (if Get(raw, "parameters").Dict? then Get(raw, "parameters") else Dict(map[]))
      && seed.kind in cat.entries && seed.mode == cat.entries[seed.kind].mode
  {
    hide Trim;
  }

  /** Which payloads pass, their targets aside: no retired and no unknown field, a type of the catalog, parameters that
      are an object with every required one present, a duration to wait for, and a preset exactly for the action that
      runs one. */
  lemma PassesExactly(raw: Action, cat: Catalog)
    ensures Validated(raw, cat).Ok? <==>
      var kind, params := Trim(Text(Get(raw, "type"), cat.show)), Get(raw, "parameters");
      var given := if params.Dict? then params.m else map[];
      && Get(raw, "action").Blank() && Get(raw, "execAction").Blank()
      && Get(raw, "target").Blank() && Get(raw, "targets").Blank()
      && raw.Keys <= {"type", "targetRef", "targetRefs", "preset", "parameters"}
      && kind != "" && kind in cat.entries && (params.Blank() || params.Dict?)
      && (forall p | p in cat.entries[kind].required :: p in given && !given[p].Blank())
      && (kind == "wait" ==> cat.duration(Get(given, "seconds")))
      && (kind == "run_runtime_preset" <==> Trim(Text(Get(raw, "preset"), cat.show)) != "")
  {
    hide Trim, Text;
  }

  /** Why a payload is refused: the error names a check that it fails. */
  lemma RefusalIsJustified(raw: Action, cat: Catalog)
    requires Validated(raw, cat).Err?
    ensures var kind, params := Trim(Text(Get(raw, "type"), cat.show)), Get(raw, "parameters");
      var preset, given := Trim(Text(Get(raw, "preset"), cat.show)), if params.Dict? then params.m else map[];
      match Validated(raw, cat).error
      case LegacyField => exists k | k in {"action", "execAction", "target", "targets"} :: !Get(raw, k).Blank()
      case UnknownField => !(raw.Keys <= {"type", "targetRef", "targetRefs", "preset", "parameters"})
      case MissingType => kind == ""
      case UnsupportedType => kind != "" && kind !in cat.entries
      case BadParameters => !params.Blank() && !params.Dict?
      case MissingParameter =>
        kind in cat.entries && exists p | p in cat.entries[kind].required :: p !in given || given[p].Blank()
      case BadSeconds => kind == "wait" && !cat.duration(Get(given, "seconds"))
      case PresetRequired => kind == "run_runtime_preset" && preset == ""
      case PresetForbidden => kind != "run_runtime_preset" && preset != ""
      case _ => false
  {
    hide Trim, Text;
  }

  /** The nodes that a list of references means. */
  ghost predicate MeansTogether(names: set<string>, refs: seq<Result<TargetRef, TargetError>>, nodes: seq<Node>) {
    forall n :: n in names <==> exists i | 0 <= i < |refs| :: refs[i].Ok? && n in Meant(refs[i].value, nodes)
  }

  lemma {:induction false} ResolvedAllExactly(refs: seq<Result<TargetRef, TargetError>>, nodes: seq<Node>)
    requires ResolvedAll(refs, nodes).Ok?
    ensures MeansTogether(ResolvedAll(refs, nodes).value, refs, nodes)
  {
    hide Resolved, Meant;
    if refs != [] {
      ResolvedAllExactly(refs[1..], nodes);
      ResolvedExactly(refs[0].value, nodes);
      var first, rest := Resolved(refs[0].value, nodes).value, ResolvedAll(refs[1..], nodes).value;
      forall n ensures n in Elements(first) + rest <==>
        exists i | 0 <= i < |refs| :: refs[i].Ok? && n in Meant(refs[i].value, nodes)
      {
        if i :| 0 <= i < |refs[1..]| && refs[1..][i].Ok? && n in Meant(refs[1..][i].value, nodes) {
          assert refs[i + 1].Ok? && n in Meant(refs[i + 1].value, nodes);
        }
        if i :| 0 < i < |refs| && refs[i].Ok? && n in Meant(refs[i].value, nodes) { assert refs[1..][i - 1] == refs[i]; }
      }
    }
  }

  /** The reference can be read, is complete, and means some VM node. */
  ghost predicate Reaches(ref: Result<TargetRef, TargetError>, nodes: seq<Node>) {
    ref.Ok? && ref.value.kind != "" && ref.value.name != "" && Meant(ref.value, nodes) != {}
  }

  lemma {:induction false} ResolvesExactly(refs: seq<Result<TargetRef, TargetError>>, nodes: seq<Node>)
    ensures ResolvedAll(refs, nodes).Ok? <==> forall i | 0 <= i < |refs| :: Reaches(refs[i], nodes)
  {
    hide Resolved, Meant;
    if refs != [] {
      ResolvesExactly(refs[1..], nodes);
      if refs[0].Ok? { ResolvedExactly(refs[0].value, nodes); }
      assert refs == [refs[0]] + refs[1..];
    }
  }

  /** The payload names its targets as this mode wants them: none at all, one reference, or a list of references, each
      of which means some VM node. */
  ghost predicate NamesTargets(raw: Action, mode: TargetMode, nodes: seq<Node>, show: Value -> string) {
    var one, many := Get(raw, "targetRef"), Get(raw, "targetRefs");
    match mode
    case NoTarget => one.Blank() && many.Blank()
    case Single => many.Blank() && !one.Blank() && Reaches(OneRef(one, show), nodes)
    case Multi =>
      && one.Blank() && many.List? && many.items != []
      && forall i | 0 <= i < |many.items| :: Reaches(OneRef(many.items[i], show), nodes)
  }

  /** A payload is accepted exactly when it passes the checks and names its targets as its type wants them. */
  lemma AcceptedExactly(raw: Action, nodes: seq<Node>, cat: Catalog)
    ensures var kind := Trim(Text(Get(raw, "type"), cat.show));
      Normalized(raw, nodes, cat).Ok? <==>
      Validated(raw, cat).Ok? && kind in cat.entries && NamesTargets(raw, cat.entries[kind].mode, nodes, cat.show)
  {
    hide Resolved, Meant, OneRef, ResolvedAll, StrLess, Reaches;
    if Validated(raw, cat).Ok? {
      ValidatedCarriesOver(raw, cat);
      hide Validated;
      var one, many := OneRef(Get(raw, "targetRef"), cat.show), Get(raw, "targetRefs");
      ReachesExactly(one, nodes);
      if many.List? {
        var refs := ListedRefs(many.items, cat.show);
        ResolvesExactly(refs, nodes);
        assert forall i | 0 <= i < |refs| :: refs[i] == OneRef(many.items[i], cat.show);
      }
    }
  }

  lemma ReachesExactly(ref: Result<TargetRef, TargetError>, nodes: seq<Node>)
    ensures ResolvedRef(ref, nodes).Ok? <==> Reaches(ref, nodes)
  {
    if ref.Ok? { ResolvedExactly(ref.value, nodes); }
  }

  /** One action for each of these nodes, aimed at it alone. */
  ghost predicate OneEach(actions: seq<Action>, names: set<string>) {
    && |actions| == |names|
    && (forall a | a in actions :: exists n | n in names :: TargetsOf(a) == {n})
    && (forall n | n in names :: exists a | a in actions :: TargetsOf(a) == {n})
  }

  /** Where normalised actions are aimed: one untargeted action; or one action for each node that the reference means,
      aimed at it alone; or one action that lists all nodes that the references mean together. */
  lemma NormalizedAimsExactly(raw: Action, nodes: seq<Node>, cat: Catalog)
    requires Normalized(raw, nodes, cat).Ok?
    ensures var actions, kind := Normalized(raw, nodes, cat).value, Trim(Text(Get(raw, "type"), cat.show));
      && kind in cat.entries
      && (cat.entries[kind].mode == NoTarget ==> |actions| == 1 && TargetsOf(actions[0]) == {})
      && (cat.entries[kind].mode == Single ==>
            var ref := OneRef(Get(raw, "targetRef"), cat.show);
            ref.Ok? && OneEach(actions, Meant(ref.value, nodes)))
      && (cat.entries[kind].mode == Multi ==>
            && |actions| == 1 && Get(raw, "targetRefs").List?
            && MeansTogether(TargetsOf(actions[0]), ListedRefs(Get(raw, "targetRefs").items, cat.show), nodes))
  {
    ValidatedCarriesOver(raw, cat);
    var seed := Validated(raw, cat).value;
    hide Validated, OneRef, ResolvedAll, Resolved, Meant, StrLess, Trim, TargetsOf, MeansTogether, OneEach;
    hide Aimed, AimedAtAll, Untargeted, ListedRefs;
    UntargetedTargets(seed);
    if seed.mode == Single {
      SingleAimsExactly(seed, OneRef(Get(raw, "targetRef"), cat.show), nodes);
    } else if seed.mode == Multi {
      MultiAimsExactly(seed, ListedRefs(Get(raw, "targetRefs").items, cat.show), nodes);
    }
  }

  lemma MultiAimsExactly(seed: Seed, refs: seq<Result<TargetRef, TargetError>>, nodes: seq<Node>)
    requires ResolvedAll(refs, nodes).Ok?
    ensures MeansTogether(TargetsOf(AimedAtAll(seed, SortedNames(ResolvedAll(refs, nodes).value))), refs, nodes)
  {
    hide ResolvedAll, TargetsOf, MeansTogether, StrLess;
    ResolvedAllExactly(refs, nodes);
    var names := ResolvedAll(refs, nodes).value;
    AimedAtAllTargets(seed, SortedNames(names));
    assert Elements(SortedNames(names)) == names;
  }

  lemma UntargetedTargets(seed: Seed)
    ensures TargetsOf(Untargeted(seed)) == {}
  {
  }

  lemma AimedAtAllTargets(seed: Seed, names: seq<string>)
    ensures TargetsOf(AimedAtAll(seed, names)) == Elements(names)
  {
    var a := AimedAtAll(seed, names);
    assert Get(a, "targets") == TextList(names) && Get(a, "target") == Null;
    forall n | n in names ensures n in TargetsOf(a) {
      var i :| 0 <= i < |names| && names[i] == n;
      assert TextList(names).items[i] == Str(n) && Str(n) in TextList(names).items;
    }
  }

  lemma AimedTargets(seed: Seed, n: string)
    ensures TargetsOf(Aimed(seed, n)) == {n}
  {
  }

  lemma SingleAimsExactly(seed: Seed, ref: Result<TargetRef, TargetError>, nodes: seq<Node>)
    requires ResolvedRef(ref, nodes).Ok?
    ensures var names := ResolvedRef(ref, nodes).value;
      ref.Ok? && OneEach(seq(|names|, i requires 0 <= i < |names| => Aimed(seed, names[i])), Meant(ref.value, nodes))
  {
    ResolvedExactly(ref.value, nodes);
    var names := ResolvedRef(ref, nodes).value;
    hide Resolved, Meant;
    AimedOneEach(seed, names);
  }

  lemma AimedOneEach(seed: Seed, names: seq<string>)
    requires Ascending(names, StrLess)
    ensures OneEach(seq(|names|, i requires 0 <= i < |names| => Aimed(seed, names[i])), Elements(names))
  {
    var actions := seq(|names|, i requires 0 <= i < |names| => Aimed(seed, names[i]));
    forall n { AimedTargets(seed, n); }
    hide TargetsOf, Aimed;
    AscendingSize(names);
    forall n | n in names ensures exists a | a in actions :: TargetsOf(a) == {n} {
      var i :| 0 <= i < |names| && names[i] == n;
      assert actions[i] in actions;
    }
    forall a | a in actions ensures exists n | n in Elements(names) :: TargetsOf(a) == {n} {
      var i :| 0 <= i < |names| && actions[i] == a;
      assert names[i] in Elements(names);
    }
  }

  lemma {:induction false} AscendingSize(names: seq<string>)
    requires Ascending(names, StrLess)
    ensures |Elements(names)| == |names|
  {
    if names != [] {
      var last := names[|names| - 1];
      var before := names[..|names| - 1];
      AscendingSize(before);
      forall i | 0 <= i < |before| ensures before[i] != last { StrLessAsymmetric(names[i], last); }
      assert names == before + [last];
      assert Elements(names) == Elements(before) + {last};
    }
  }

  // ---------------------------------------------------------------- the second pass

  /** A normalised action, and the VM nodes it is aimed at. */
  ghost predicate Canonical(a: Action, nodes: seq<Node>) {
    || (Get(a, "targetRef") == Get(a, "target") == Get(a, "targets") == Null)
    || (exists n | n in VmNames(nodes) ::
          Get(a, "targetRef") == RefTo(n) && Get(a, "target") == Str(n) && Get(a, "targets") == Null)
    || (exists names: seq<string> | names != [] && Ascending(names, StrLess) && Elements(names) <= VmNames(nodes) ::
          Get(a, "targetRef") == Get(a, "target") == Null && Get(a, "targets") == TextList(names))
  }

  lemma BuiltActionsAreCanonical(seed: Seed, nodes: seq<Node>)
    ensures Canonical(Untargeted(seed), nodes)
    ensures forall n | n in VmNames(nodes) :: Canonical(Aimed(seed, n), nodes)
  {
  }

  lemma ListActionIsCanonical(seed: Seed, names: set<string>, nodes: seq<Node>)
    requires names != {} && names <= VmNames(nodes)
    ensures Canonical(AimedAtAll(seed, SortedNames(names)), nodes)
  {
    var sorted := SortedNames(names);
    var n :| n in names;
    assert n in sorted && Elements(sorted) == names;
    AimedAtAllFields(seed, sorted);
    hide VmNames, StrLess, TextList, AimedAtAll, RefTo;
  }

  lemma AimedAtAllFields(seed: Seed, names: seq<string>)
    ensures var a := AimedAtAll(seed, names);
      Get(a, "targetRef") == Get(a, "target") == Null && Get(a, "targets") == TextList(names)
  {
  }

  /** Normalisation gives at least one action, each of them canonical. */
  lemma NormalizedIsCanonical(raw: Action, nodes: seq<Node>, cat: Catalog)
    requires Normalized(raw, nodes, cat).Ok?
    ensures Normalized(raw, nodes, cat).value != []
    ensures forall a | a in Normalized(raw, nodes, cat).value :: Canonical(a, nodes)
  {
    hide Validated, OneRef, Resolved, ResolvedAll, Canonical, Aimed, Untargeted, AimedAtAll, VmNames, StrLess;
    var seed := Validated(raw, cat).value;
    BuiltActionsAreCanonical(seed, nodes);
    if seed.mode == Multi {
      var refs := ListedRefs(Get(raw, "targetRefs").items, cat.show);
      ResolvedAllNonEmpty(refs, nodes);
      ListActionIsCanonical(seed, ResolvedAll(refs, nodes).value, nodes);
    }
  }

  /** The plain targets of an action: its `target` and the entries of its `targets`. */
  function TargetsOf(a: Action): set<string> {
    var one, many := Get(a, "target"), Get(a, "targets");
    (if one.Str? then {one.s} else {})
    + (if many.List? then (set v | v in many.items && v.Str? :: v.s) else {})
  }

  /** Resolving the targets of a canonical action leaves every action it gives aimed at VM nodes only. */
  lemma TargetedStaysWithin(a: Action, nodes: seq<Node>, show: Value -> string)
    requires Canonical(a, nodes) && Targeted(a, nodes, show).Ok?
    ensures forall b | b in Targeted(a, nodes, show).value :: TargetsOf(b) <= VmNames(nodes)
  {
    hide ParseActionRef, Resolved, ResolvedAll, VmNames, StrLess;
  }

  /** The texts in the target list of an action. */
  function Listed(a: Action): set<string> {
    var many := Get(a, "targets");
    if many.List? then set v | v in many.items && v.Str? :: v.s else {}
  }

  /** The second pass changes nothing: every action that normalisation gives resolves to itself, provided the
      names in its target list are self-reading. */
  lemma SecondPassIsIdentity(raw: Action, nodes: seq<Node>, cat: Catalog)
    requires Normalized(raw, nodes, cat).Ok?
    requires forall a | a in Normalized(raw, nodes, cat).value :: forall n | n in Listed(a) :: SelfReading(n, nodes)
    ensures forall a | a in Normalized(raw, nodes, cat).value :: Targeted(a, nodes, cat.show) == Ok([a])
  {
    hide Normalized, Listed, SelfReading, Targeted, Canonical;
    NormalizedIsCanonical(raw, nodes, cat);
    forall a | a in Normalized(raw, nodes, cat).value ensures Targeted(a, nodes, cat.show) == Ok([a]) {
      CanonicalIsFixed(a, nodes, cat.show);
    }
  }

  lemma ListedNames(a: Action, names: seq<string>)
    requires Get(a, "targets") == TextList(names)
    ensures forall n | n in names :: n in Listed(a)
  {
    forall n | n in names ensures n in Listed(a) {
      var i :| 0 <= i < |names| && names[i] == n;
      assert TextList(names).items[i] == Str(n);
    }
  }

  lemma ListedAreVmNames(a: Action, nodes: seq<Node>)
    requires Canonical(a, nodes)
    ensures Listed(a) <= VmNames(nodes)
  {
    hide VmNames, StrLess;
  }

  lemma CanonicalIsFixed(a: Action, nodes: seq<Node>, show: Value -> string)
    requires Canonical(a, nodes)
    requires forall n | n in Listed(a) :: SelfReading(n, nodes)
    ensures Targeted(a, nodes, show) == Ok([a])
  {
    hide Resolved, ResolvedAll, SelfReading, StrLess, Listed, VmNames;
    if n :| n in VmNames(nodes) && Get(a, "targetRef") == RefTo(n) && Get(a, "target") == Str(n) {
      AimedActionIsFixed(a, n, nodes, show);
    } else if names: seq<string> :|
      Ascending(names, StrLess) && (forall n | n in names :: n in VmNames(nodes))
          && Get(a, "targets") == TextList(names)
      && Get(a, "targetRef") == Get(a, "target") == Null
    {
      ListedNames(a, names);
      TargetListIsFixed(a, names, nodes, show);
    }
  }
}
