/** The overrides that a variant's values give to the sender and the responder, and when the generation-time check
    answers rightly for them. */
module RrtOverrides {
  import opened Values
  import opened RrtMerge
  import opened RrtCheck

  datatype Component = Sender | Responder

  /** The values of a variant in document order. */
  type Variant = seq<(string, Value)>

  /** One parameter set for one component. */
  datatype Setting = Setting(component: Component, name: string, value: Value)

  const SENDER := "icopa_sender"
  const RESPONDER := "icopa_responder"
  const PARAMETERS := "ros__parameters"

  /** The short axis names: each stands for a parameter, a later one replacing an earlier one. */
  const SENDER_ALIASES: seq<(string, string)> := [
    ("payload_size", "payload_size"), ("payloadSize", "payload_size"),
    ("publish_rate_hz", "frequency_hz"), ("pub_rate_hz", "frequency_hz"), ("frequency_hz", "frequency_hz"),
    ("json_duration_sec", "json_duration_sec")]

  const RESPONDER_ALIASES: seq<(string, string)> := [
    ("response_payload_size", "response_payload_size"), ("responsePayloadSize", "response_payload_size")]

  function ValueOf(variant: Variant, key: string): Option<Value> {
    if variant == [] then None else if variant[0].0 == key then Some(variant[0].1) else ValueOf(variant[1..], key)
  }

  /** What stands after `component` and the separator, without the parameter section's name. */
  function Tail(key: string, component: string, separator: char): Option<string> {
    var head, section := component + [separator], PARAMETERS + [separator];
    if !(head <= key) then None
    else
      var tail := Trim(key[|head|..]);
      Some(if section <= tail then Trim(tail[|section|..]) else tail)
  }

  /** The parameter that a long axis name addresses. */
  function Addressed(axis: string): Option<(Component, string)> {
    var key := Trim(axis);
    if Tail(key, SENDER, ':').Some? then Parameter(Sender, Tail(key, SENDER, ':').value)
    else if Tail(key, RESPONDER, ':').Some? then Parameter(Responder, Tail(key, RESPONDER, ':').value)
    else if Tail(key, SENDER, '.').Some? then Parameter(Sender, Tail(key, SENDER, '.').value)
    else if Tail(key, RESPONDER, '.').Some? then Parameter(Responder, Tail(key, RESPONDER, '.').value)
    else None
  }

  function Parameter(component: Component, name: string): Option<(Component, string)> {
    if name == "" then None else Some((component, name))
  }

  function AliasSettings(variant: Variant, component: Component, aliases: seq<(string, string)>): seq<Setting> {
    if aliases == [] then []
    else
      var value := ValueOf(variant, aliases[|aliases| - 1].0);
      AliasSettings(variant, component, aliases[..|aliases| - 1])
      + if value.Some? then [Setting(component, aliases[|aliases| - 1].1, value.value)] else []
  }

  /** What one axis of a variant sets, if it addresses a parameter. */
  function AddressedSetting(axis: (string, Value)): seq<Setting> {
    match Addressed(axis.0)
    case None => []
    case Some((component, name)) => [Setting(component, name, axis.1)]
  }

  function AddressedSettings(variant: Variant): seq<Setting> {
    if variant == [] then []
    else
      AddressedSettings(variant[..|variant| - 1]) + AddressedSetting(variant[|variant| - 1])
  }

  /** Everything a variant sets, in the order in which it is set. */
  function Settings(variant: Variant): seq<Setting> {
    AliasSettings(variant, Sender, SENDER_ALIASES) + AliasSettings(variant, Responder, RESPONDER_ALIASES)
    + AddressedSettings(variant)
  }

  /** The parameters of a component: the last setting of a name wins. */
  function Section(settings: seq<Setting>, component: Component): map<string, Value> {
    if settings == [] then map[]
    else
      var before, last := Section(settings[..|settings| - 1], component), settings[|settings| - 1];
      if last.component == component then before[last.name := last.value] else before
  }

  function Block(name: string, section: map<string, Value>): map<string, Value> {
    if section == map[] then map[] else map[name := Dict(map[PARAMETERS := Dict(section)])]
  }

  /** What `_variant_values_to_rrt_overrides` returns. */
  function Overrides(variant: Variant): Value {
    Dict(Block(SENDER, Section(Settings(variant), Sender)) + Block(RESPONDER, Section(Settings(variant), Responder)))
  }

  lemma {:induction false} SectionAppend(a: seq<Setting>, b: seq<Setting>, component: Component)
    ensures Section(a + b, component) == Section(a, component) + Section(b, component)
  {
    if b == [] {
      assert a + b == a;
    } else {
      assert (a + b)[..|a + b| - 1] == a + b[..|b| - 1];
      SectionAppend(a, b[..|b| - 1], component);
    }
  }

  lemma {:induction false} AliasesTouchOne(variant: Variant, component: Component, aliases: seq<(string, string)>)
    ensures forall other | other != component :: Section(AliasSettings(variant, component, aliases), other) == map[]
  {
    if aliases != [] {
      var before := AliasSettings(variant, component, aliases[..|aliases| - 1]);
      AliasesTouchOne(variant, component, aliases[..|aliases| - 1]);
      if AliasSettings(variant, component, aliases) != before {
        assert AliasSettings(variant, component, aliases)[..|before|] == before;
      }
    }
  }

  method ApplyAliases(variant: Variant, component: Component, aliases: seq<(string, string)>)
    returns (section: map<string, Value>)
    ensures section == Section(AliasSettings(variant, component, aliases), component)
  {
    section := map[];
    for i := 0 to |aliases|
      invariant section == Section(AliasSettings(variant, component, aliases[..i]), component)
    {
      assert aliases[..i + 1][..i] == aliases[..i];
      var before := AliasSettings(variant, component, aliases[..i]);
      var value := ValueOf(variant, aliases[i].0);
      if value.Some? {
        assert (before + [Setting(component, aliases[i].1, value.value)])[..|before|] == before;
        section := section[aliases[i].1 := value.value];
      } else {
        assert before + [] == before;
      }
    }
    assert aliases[..|aliases|] == aliases;
  }

  /** One more setting. */
  lemma SectionStep(settings: seq<Setting>, setting: Setting, component: Component)
    ensures Section(settings + [setting], component)
            == if setting.component == component then Section(settings, component)[setting.name := setting.value]
               else Section(settings, component)
  {
    assert (settings + [setting])[..|settings|] == settings;
  }

  lemma AddressedStep(variant: Variant, i: nat, before: seq<Setting>)
    requires i < |variant|
    ensures before + AddressedSettings(variant[..i + 1]) ==
      before + AddressedSettings(variant[..i]) + AddressedSetting(variant[i])
  {
    hide Addressed;
    assert variant[..i + 1][..i] == variant[..i];
  }

  method ApplyAddressed(variant: Variant, sender: map<string, Value>, responder: map<string, Value>,
      ghost before: seq<Setting>)
    returns (s: map<string, Value>, r: map<string, Value>)
    requires sender == Section(before, Sender) && responder == Section(before, Responder)
    ensures s == Section(before + AddressedSettings(variant), Sender)
    ensures r == Section(before + AddressedSettings(variant), Responder)
  {
    assert before + AddressedSettings(variant[..0]) == before;
    hide Addressed, Section, AddressedSettings;
    s, r := sender, responder;
    for i := 0 to |variant|
      invariant s == Section(before + AddressedSettings(variant[..i]), Sender)
      invariant r == Section(before + AddressedSettings(variant[..i]), Responder)
    {
      AddressedStep(variant, i, before);
      var target := Addressed(variant[i].0);
      if target.None? {
        assert before + AddressedSettings(variant[..i]) + [] == before + AddressedSettings(variant[..i]);
        continue;
      }
      ghost var setting := Setting(target.value.0, target.value.1, variant[i].1);
      SectionStep(before + AddressedSettings(variant[..i]), setting, Sender);
      SectionStep(before + AddressedSettings(variant[..i]), setting, Responder);
      var (component, name) := target.value;
      if component == Sender { s := s[name := variant[i].1]; } else { r := r[name := variant[i].1]; }
    }
    assert variant[..|variant|] == variant;
  }

  method VariantOverrides(variant: Variant) returns (overrides: Value)
    ensures overrides == Overrides(variant)
  {
    hide Addressed, AliasSettings, Section, AddressedSettings;
    var sender := ApplyAliases(variant, Sender, SENDER_ALIASES);
    var responder := ApplyAliases(variant, Responder, RESPONDER_ALIASES);
    ghost var own := AliasSettings(variant, Sender, SENDER_ALIASES);
    ghost var other := AliasSettings(variant, Responder, RESPONDER_ALIASES);
    AliasesTouchOne(variant, Sender, SENDER_ALIASES);
    AliasesTouchOne(variant, Responder, RESPONDER_ALIASES);
    SectionAppend(own, other, Sender);
    SectionAppend(own, other, Responder);
    assert sender + map[] == sender && map[] + responder == responder;
    sender, responder := ApplyAddressed(variant, sender, responder, own + other);
    var blocks: map<string, Value> := map[];
    if sender != map[] { blocks := blocks[SENDER := Dict(map[PARAMETERS := Dict(sender)])]; }
    if responder != map[] { blocks := blocks[RESPONDER := Dict(map[PARAMETERS := Dict(responder)])]; }
    overrides := Dict(blocks);
    assert blocks == Overrides(variant).m;
  }

  // ---------------------------------------------------------------- when the check is right

  /** Two settings of the same parameter. */
  predicate Same(a: Setting, b: Setting) {
    a.component == b.component && a.name == b.name
  }

  /** No later setting replaces this one. */
  ghost predicate Effective(settings: seq<Setting>, i: nat) {
    i < |settings| && forall j | i < j < |settings| :: !Same(settings[j], settings[i])
  }

  lemma {:induction false} SectionExactly(settings: seq<Setting>, component: Component, name: string)
    ensures name in Section(settings, component) <==>
      exists i: nat :: Effective(settings, i) && settings[i].component == component && settings[i].name == name
    ensures forall i: nat | Effective(settings, i) && settings[i].component == component && settings[i].name == name ::
      name in Section(settings, component) && Section(settings, component)[name] == settings[i].value
  {
    if settings != [] {
      var n := |settings| - 1;
      var before := settings[..n];
      SectionExactly(before, component, name);
      assert settings == before + [settings[n]];
      assert Effective(settings, n);
      var replaced := settings[n].component == component && settings[n].name == name;
      forall i: nat | i < n && settings[i].component == component && settings[i].name == name
        ensures Effective(settings, i) <==> Effective(before, i) && !replaced
      {
        if Effective(before, i) && !replaced {
          forall j | i < j < |settings| ensures !Same(settings[j], settings[i]) {
            if j < n { assert before[j] == settings[j]; }
          }
        }
        if Effective(settings, i) {
          forall j | i < j < n ensures before[j].component != before[i].component || before[j].name != before[i].name {
            assert before[j] == settings[j];
          }
        }
      }
    }
  }

  /** A value in which every object has plain keys and entries. */
  ghost predicate Proper(v: Value) {
    v != Dict(map[]) && PlainKeys(v) && NoEmptyInside(v)
  }

  ghost predicate ProperSection(settings: seq<Setting>, component: Component) {
    forall k | k in Section(settings, component) :: PlainKey(k) && Proper(Section(settings, component)[k])
  }

  lemma OverridesAreProperExactly(variant: Variant)
    ensures PlainKeys(Overrides(variant)) && NoEmptyInside(Overrides(variant)) <==>
      ProperSection(Settings(variant), Sender) && ProperSection(Settings(variant), Responder)
  {
    hide Settings, Section;
    var sender, responder := Section(Settings(variant), Sender), Section(Settings(variant), Responder);
    if sender != map[] { BlockIsProperExactly(SENDER, sender); }
    if responder != map[] { BlockIsProperExactly(RESPONDER, responder); }
    assert SENDER != RESPONDER && PlainKey(SENDER) && PlainKey(RESPONDER);
    OverridesHoldBlocks(variant);
    hide Block, Overrides;
  }

  /** The overrides hold the block of each component that has parameters, and nothing else. */
  lemma OverridesHoldBlocks(variant: Variant)
    ensures var all := Overrides(variant).m;
      && (forall k | k in all :: k == SENDER || k == RESPONDER)
      && (SENDER in all <==> Section(Settings(variant), Sender) != map[])
      && (RESPONDER in all <==> Section(Settings(variant), Responder) != map[])
      && var sender, responder := Section(Settings(variant), Sender), Section(Settings(variant), Responder);
      && (SENDER in all ==> SENDER in Block(SENDER, sender) && all[SENDER] == Block(SENDER, sender)[SENDER])
      && (RESPONDER in all ==>
            RESPONDER in Block(RESPONDER, responder) && all[RESPONDER] == Block(RESPONDER, responder)[RESPONDER])
  {
    hide Settings, Section;
    assert SENDER != RESPONDER;
  }

  lemma BlockIsProperExactly(name: string, section: map<string, Value>)
    requires section != map[]
    ensures name in Block(name, section)
    ensures Proper(Block(name, section)[name]) <==> forall k | k in section :: PlainKey(k) && Proper(section[k])
  {
    var inner := Dict(section);
    var outer := Dict(map[PARAMETERS := inner]);
    assert Block(name, section)[name] == outer;
    assert PlainKey(PARAMETERS) && outer.m[PARAMETERS] == inner && PARAMETERS in outer.m;
    assert PlainKeys(outer) <==> PlainKeys(inner);
    assert NoEmptyInside(outer) <==> inner != Dict(map[]) && NoEmptyInside(inner);
  }

  /** Every setting is replaced in the end by an effective one. */
  lemma {:induction false} LastSetting(settings: seq<Setting>, i: nat) returns (last: nat)
    requires i < |settings|
    ensures i <= last && Effective(settings, last)
    ensures Same(settings[last], settings[i])
    decreases |settings| - i
  {
    if Effective(settings, i) {
      last := i;
    } else {
      var j: nat :| i < j < |settings| && Same(settings[j], settings[i]);
      last := LastSetting(settings, j);
    }
  }

  /** A parameter name without a dot in it, and a value that stays, in which every object is proper. */
  ghost predicate ProperSettings(settings: seq<Setting>) {
    && (forall i: nat | i < |settings| :: '.' !in settings[i].name)
    && forall i: nat | Effective(settings, i) :: Proper(settings[i].value)
  }

  lemma SectionsAreProperExactly(settings: seq<Setting>)
    requires forall i: nat | i < |settings| :: settings[i].name != ""
    ensures ProperSection(settings, Sender) && ProperSection(settings, Responder) <==> ProperSettings(settings)
  {
    hide Proper, Effective, Section;
    if ProperSection(settings, Sender) && ProperSection(settings, Responder) {
      forall i: nat | Effective(settings, i)
        ensures i < |settings| && Proper(settings[i].value) && '.' !in settings[i].name
      {
        EffectiveIsInside(settings, i);
        SectionExactly(settings, settings[i].component, settings[i].name);
        assert ProperSection(settings, settings[i].component);
      }
      forall i: nat | i < |settings| ensures '.' !in settings[i].name {
        var last := LastSetting(settings, i);
        EffectiveIsInside(settings, last);
      }
    }
    if ProperSettings(settings) {
      forall c: Component ensures ProperSection(settings, c) { SettingsMakeProperSections(settings, c); }
    }
  }

  lemma EffectiveIsInside(settings: seq<Setting>, i: nat)
    requires Effective(settings, i)
    ensures i < |settings|
  {
  }

  lemma SettingsMakeProperSections(settings: seq<Setting>, component: Component)
    requires ProperSettings(settings) && forall i: nat | i < |settings| :: settings[i].name != ""
    ensures ProperSection(settings, component)
  {
    hide Proper, Section;
    forall k | k in Section(settings, component) ensures PlainKey(k) && Proper(Section(settings, component)[k]) {
      SectionExactly(settings, component, k);
      var i: nat :| Effective(settings, i) && settings[i].component == component && settings[i].name == k;
    }
  }

  lemma {:induction false} AliasNames(variant: Variant, component: Component, aliases: seq<(string, string)>)
    requires forall i | 0 <= i < |aliases| :: PlainKey(aliases[i].1)
    ensures forall s | s in AliasSettings(variant, component, aliases) :: PlainKey(s.name)
  {
    if aliases != [] { AliasNames(variant, component, aliases[..|aliases| - 1]); }
  }

  /** The axis addresses no parameter with a dot in its name. */
  predicate DotFree(axis: string) {
    Addressed(axis).Some? ==> '.' !in Addressed(axis).value.1
  }

  lemma AddressedIsNamed(axis: string)
    ensures Addressed(axis).Some? ==> Addressed(axis).value.1 != ""
  {
    hide Tail;
  }

  lemma {:induction false} AddressedNames(variant: Variant)
    ensures forall i: nat | i < |AddressedSettings(variant)| :: AddressedSettings(variant)[i].name != ""
    ensures (forall i: nat | i < |AddressedSettings(variant)| :: '.' !in AddressedSettings(variant)[i].name)
            <==> forall e | e in variant :: DotFree(e.0)
  {
    hide Addressed;
    if variant != [] {
      var last := variant[|variant| - 1];
      var shorter := variant[..|variant| - 1];
      AddressedNames(shorter);
      AddressedIsNamed(last.0);
      assert variant == shorter + [last];
      var before, all := AddressedSettings(shorter), AddressedSettings(variant);
      if Addressed(last.0).Some? {
        var added := all[|before|];
        assert all == before + [added] && (DotFree(last.0) <==> '.' !in added.name);
        forall i: nat | i < |before| ensures all[i] == before[i] {}
        if forall i: nat | i < |all| :: '.' !in all[i].name {
          forall i: nat | i < |before| ensures '.' !in before[i].name { assert all[i] == before[i]; }
        }
      } else {
        assert all == before && DotFree(last.0);
      }
    }
  }

  /** No long axis name leaves a dot in the parameter it addresses, and every value that stays is proper: it is no
      empty map, and the maps in it have plain keys and no empty map inside. */
  ghost predicate Straightforward(variant: Variant) {
    && (forall e | e in variant :: DotFree(e.0))
    && forall i: nat | Effective(Settings(variant), i) :: Proper(Settings(variant)[i].value)
  }

  lemma SettingNames(variant: Variant)
    ensures forall i: nat | i < |Settings(variant)| :: Settings(variant)[i].name != ""
    ensures ProperSettings(Settings(variant)) <==> Straightforward(variant)
  {
    hide Proper, Effective, Addressed, AddressedSettings, AliasSettings;
    AliasNames(variant, Sender, SENDER_ALIASES);
    AliasNames(variant, Responder, RESPONDER_ALIASES);
    AddressedNames(variant);
    var a, b := AliasSettings(variant, Sender, SENDER_ALIASES), AliasSettings(variant, Responder, RESPONDER_ALIASES);
    var c := AddressedSettings(variant);
    assert Settings(variant) == a + b + c;
    forall i: nat | i < |c| ensures c[i] == (a + b + c)[|a + b| + i] {}
  }

  /** For the overrides derived from a variant, the check is right for every base exactly when the variant is
      straightforward. */
  lemma DerivedCheckIsRightExactly(variant: Variant)
    ensures (forall base: Value | base.Dict? :: Accepted(base, Overrides(variant)) <==> NoNewKeys(base, Overrides(variant)))
            <==> Straightforward(variant)
  {
    CheckIsRightExactly(Overrides(variant));
    OverridesAreProperExactly(variant);
    SettingNames(variant);
    SectionsAreProperExactly(Settings(variant));
    hide Accepted, NoNewKeys, Overrides, Straightforward, ProperSettings, PlainKeys, NoEmptyInside, Proper, Section;
  }

  // ---------------------------------------------------------------- an axis that fools the check

  function ForSender(parameters: Value): Value {
    Dict(map[SENDER := Dict(map[PARAMETERS := parameters])])
  }

  const DOTTED: Variant := [("icopa_sender:qos.depth", Num(2))]

  lemma DottedIsAddressed()
    ensures Addressed("icopa_sender:qos.depth") == Some((Sender, "qos.depth"))
  {
    var key, tail := "icopa_sender:qos.depth", "qos.depth";
    assert Trimmed(key) && Trimmed(tail);
    assert key[|SENDER + [':']|..] == tail && SENDER + [':'] <= key;
    assert !(PARAMETERS + [':'] <= tail) by { assert (PARAMETERS + [':'])[0] == 'r'; }
  }

  lemma DottedSettings()
    ensures Settings(DOTTED) == [Setting(Sender, "qos.depth", Num(2))]
  {
    DottedIsAddressed();
    hide Addressed, AliasSettings;
    assert forall key | key != "icopa_sender:qos.depth" :: ValueOf(DOTTED, key).None?;
    NoAlias(DOTTED, Sender, SENDER_ALIASES);
    NoAlias(DOTTED, Responder, RESPONDER_ALIASES);
    hide ValueOf;
    assert DOTTED[..0] == [];
    assert AddressedSettings(DOTTED) == [] + [Setting(Sender, "qos.depth", Num(2))];
  }

  lemma OneSection(setting: Setting, component: Component)
    ensures Section([setting], component)
      == if setting.component == component then map[setting.name := setting.value] else map[]
  {
    assert [setting][..0] == [];
  }

  lemma DottedOverrides()
    ensures Overrides(DOTTED) == ForSender(Dict(map["qos.depth" := Num(2)]))
  {
    DottedSettings();
    var setting := Setting(Sender, "qos.depth", Num(2));
    OneSection(setting, Sender);
    OneSection(setting, Responder);
    hide Settings, Section;
    var sender: map<string, Value> := map["qos.depth" := Num(2)];
    assert "qos.depth" in sender;
    assert Block(SENDER, sender) + Block(RESPONDER, map[]) == ForSender(Dict(sender)).m;
  }

  lemma {:induction false} NoAlias(variant: Variant, component: Component, aliases: seq<(string, string)>)
    requires forall i | 0 <= i < |aliases| :: ValueOf(variant, aliases[i].0).None?
    ensures AliasSettings(variant, component, aliases) == []
  {
    if aliases != [] { NoAlias(variant, component, aliases[..|aliases| - 1]); }
  }

  lemma SenderKeys(parameters: Value, path: seq<string>)
    ensures HasKeys(ForSender(parameters), [SENDER, PARAMETERS] + path) <==> HasKeys(parameters, path)
  {
    var all := [SENDER, PARAMETERS] + path;
    assert all[1..] == [PARAMETERS] + path && all[1..][1..] == path;
  }

  lemma SenderLeaf(parameters: Value, path: seq<string>)
    requires LeafPath(ForSender(parameters), path) && parameters.Dict?
    ensures |path| >= 2 && path == [SENDER, PARAMETERS] + path[2..] && LeafPath(parameters, path[2..])
  {
    assert path[1..][1..] == path[2..];
    assert path == [path[0], path[1]] + path[2..];
  }

  lemma PlainHead(head: string, path: seq<string>)
    requires head != "" && '.' !in head
    ensures SegmentsOf([head] + path) == [head] + SegmentsOf(path)
  {
    SegmentsFromPlain(head, "");
    assert "" + head == head && ([head] + path)[1..] == path;
  }

  lemma SenderSegments(path: seq<string>)
    ensures SegmentsOf([SENDER, PARAMETERS] + path) == [SENDER, PARAMETERS] + SegmentsOf(path)
  {
    hide SegmentsOf;
    PlainHead(PARAMETERS, path);
    PlainHead(SENDER, [PARAMETERS] + path);
    assert [SENDER] + ([PARAMETERS] + path) == [SENDER, PARAMETERS] + path;
    assert [SENDER] + ([PARAMETERS] + SegmentsOf(path)) == [SENDER, PARAMETERS] + SegmentsOf(path);
  }

  lemma DottedSegments()
    ensures SegmentsOf(["qos.depth"]) == ["qos", "depth"]
  {
    SegmentsFromDot("qos", "depth", "");
    SegmentsFromPlain("qos", "");
    SegmentsFromPlain("depth", "");
    assert "qos" + "." + "depth" == "qos.depth" && "" + "qos" == "qos" && "" + "depth" == "depth";
    assert ["qos.depth"][1..] == [];
  }

  /** An axis with a dot in its parameter name: the check accepts it against a base that only has the nested
      parameter, yet merging adds a parameter the base never had. */
  lemma DottedAxisFoolsTheCheck()
    ensures var base := ForSender(Dict(map["qos" := Dict(map["depth" := Num(1)])]));
      Accepted(base, Overrides(DOTTED)) && !NoNewKeys(base, Overrides(DOTTED))
  {
    DottedOverrides();
    DottedSegments();
    hide Overrides, SegmentsOf;
    var nested, dotted := Dict(map["qos" := Dict(map["depth" := Num(1)])]), Dict(map["qos.depth" := Num(2)]);
    var base, over := ForSender(nested), ForSender(dotted);
    assert base.Dict? && over.Dict?;
    hide ForSender;
    assert HasKeys(nested, ["qos", "depth"]) by { assert ["qos", "depth"][1..] == ["depth"] && ["depth"][1..] == []; }
    forall path | LeafPath(over, path) ensures HasKeys(base, SegmentsOf(path)) {
      SenderLeaf(dotted, path);
      assert path[2..][0] == "qos.depth" && path[2..] == ["qos.depth"];
      SenderSegments(["qos.depth"]);
      SenderKeys(nested, ["qos", "depth"]);
    }
    var odd := [SENDER, PARAMETERS] + ["qos.depth"];
    SenderKeys(nested, ["qos.depth"]);
    SenderKeys(dotted, ["qos.depth"]);
    assert "qos.depth" != "qos" by { assert |"qos.depth"| != |"qos"|; }
    assert HasKeys(dotted, ["qos.depth"]) by { assert ["qos.depth"][1..] == []; }
    MergedKeys(base, over, odd);
    assert HasKeys(Merged(base, over), odd) && !HasKeys(base, odd);
  }
}
