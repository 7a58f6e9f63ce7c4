/** Which parameters the axes of a variant set in the derived overrides. */
module RrtAxes {
  import opened Values
  import opened RrtPaths
  import opened RrtOverrides

  function Found(section: map<string, Value>, n: string): Option<Value> {
    if n in section then Some(section[n]) else None
  }

  function Or(a: Option<Value>, b: Option<Value>): Option<Value> {
    if a.Some? then a else b
  }

  /** The value of the last long axis that addresses this parameter. */
  function LastAddressed(variant: Variant, component: Component, n: string): Option<Value> {
    if variant == [] then None
    else
      var last := variant[|variant| - 1];
      if Addressed(last.0) == Some((component, n)) then Some(last.1)
      else LastAddressed(variant[..|variant| - 1], component, n)
  }

  /** The value a short axis gives to this parameter; of several short axes for one parameter the one whose name is the
      parameter's wins, then the shorter of the two rate names, and for the payload sizes the camel-cased name. */
  function Short(variant: Variant, component: Component, n: string): Option<Value> {
    match component
    case Sender =>
      if n == "payload_size" then Or(ValueOf(variant, "payloadSize"), ValueOf(variant, "payload_size"))
      else if n == "frequency_hz" then
        Or(ValueOf(variant, "frequency_hz"), Or(ValueOf(variant, "pub_rate_hz"), ValueOf(variant, "publish_rate_hz")))
      else if n == "json_duration_sec" then ValueOf(variant, "json_duration_sec")
      else None
    case Responder =>
      if n == "response_payload_size" then
        Or(ValueOf(variant, "responsePayloadSize"), ValueOf(variant, "response_payload_size"))
      else None
  }

  lemma {:induction false} AddressedSection(variant: Variant, component: Component, n: string)
    ensures Found(Section(AddressedSettings(variant), component), n) == LastAddressed(variant, component, n)
  {
    hide Addressed;
    if variant != [] {
      var before, last := variant[..|variant| - 1], variant[|variant| - 1];
      AddressedSection(before, component, n);
      var settings := AddressedSettings(before);
      match Addressed(last.0)
      case None => assert AddressedSettings(variant) == settings;
      case Some((c, name)) =>
        assert AddressedSettings(variant) == settings + [Setting(c, name, last.1)];
        SectionStep(settings, Setting(c, name, last.1), component);
    }
  }

  /** One more alias. */
  lemma AliasStep(variant: Variant, component: Component, aliases: seq<(string, string)>, alias: (string, string),
      n: string)
    ensures Found(Section(AliasSettings(variant, component, aliases + [alias]), component), n) ==
      if n == alias.1 && ValueOf(variant, alias.0).Some? then ValueOf(variant, alias.0)
      else Found(Section(AliasSettings(variant, component, aliases), component), n)
  {
    assert (aliases + [alias])[..|aliases|] == aliases;
    hide ValueOf;
    var before := AliasSettings(variant, component, aliases);
    match ValueOf(variant, alias.0)
    case None => assert before + [] == before;
    case Some(v) => SectionStep(before, Setting(component, alias.1, v), component);
  }

  lemma SenderAliases(variant: Variant, n: string)
    ensures Found(Section(AliasSettings(variant, Sender, SENDER_ALIASES), Sender), n) == Short(variant, Sender, n)
  {
    hide ValueOf, Section, AliasSettings;
    var a: seq<(string, string)> := [];
    var b := a + [("payload_size", "payload_size")];
    var c := b + [("payloadSize", "payload_size")];
    var d := c + [("publish_rate_hz", "frequency_hz")];
    var e := d + [("pub_rate_hz", "frequency_hz")];
    var f := e + [("frequency_hz", "frequency_hz")];
    AliasStep(variant, Sender, a, ("payload_size", "payload_size"), n);
    AliasStep(variant, Sender, b, ("payloadSize", "payload_size"), n);
    AliasStep(variant, Sender, c, ("publish_rate_hz", "frequency_hz"), n);
    AliasStep(variant, Sender, d, ("pub_rate_hz", "frequency_hz"), n);
    AliasStep(variant, Sender, e, ("frequency_hz", "frequency_hz"), n);
    AliasStep(variant, Sender, f, ("json_duration_sec", "json_duration_sec"), n);
    assert SENDER_ALIASES == f + [("json_duration_sec", "json_duration_sec")];
    NoAliases(variant, Sender);
  }

  lemma NoAliases(variant: Variant, component: Component)
    ensures Section(AliasSettings(variant, component, []), component) == map[]
  {
  }

  lemma ResponderAliases(variant: Variant, n: string)
    ensures Found(Section(AliasSettings(variant, Responder, RESPONDER_ALIASES), Responder), n)
         == Short(variant, Responder, n)
  {
    hide ValueOf, Section, AliasSettings;
    var a: seq<(string, string)> := [];
    var b := a + [("response_payload_size", "response_payload_size")];
    AliasStep(variant, Responder, a, ("response_payload_size", "response_payload_size"), n);
    AliasStep(variant, Responder, b, ("responsePayloadSize", "response_payload_size"), n);
    assert RESPONDER_ALIASES == b + [("responsePayloadSize", "response_payload_size")];
    NoAliases(variant, Responder);
  }

  lemma SectionAsWritten(variant: Variant, component: Component, n: string)
    ensures Found(Section(Settings(variant), component), n)
         == Or(LastAddressed(variant, component, n), Short(variant, component, n))
  {
    var a, b := AliasSettings(variant, Sender, SENDER_ALIASES), AliasSettings(variant, Responder, RESPONDER_ALIASES);
    var c := AddressedSettings(variant);
    SectionAppend(a + b, c, component);
    SectionAppend(a, b, component);
    AliasesTouchOne(variant, Sender, SENDER_ALIASES);
    AliasesTouchOne(variant, Responder, RESPONDER_ALIASES);
    AddressedSection(variant, component, n);
    SenderAliases(variant, n);
    ResponderAliases(variant, n);
    hide Section, AliasSettings, AddressedSettings, Short, LastAddressed;
  }

  function NameOf(component: Component): string {
    match component case Sender => "icopa_sender" case Responder => "icopa_responder"
  }

  /** Every parameter in the derived overrides stands under its component and the parameter section, with the value of
      the last long axis that addresses it, or else of the short axis for it. */
  lemma ParametersExactly(variant: Variant, component: Component, n: string)
    ensures At(Overrides(variant), [NameOf(component), "ros__parameters", n])
         == Or(LastAddressed(variant, component, n), Short(variant, component, n))
  {
    SectionAsWritten(variant, component, n);
    var section := Section(Settings(variant), component);
    OverridesUnderName(variant, component, ["ros__parameters", n]);
    assert [NameOf(component)] + ["ros__parameters", n] == [NameOf(component), "ros__parameters", n];
    hide Settings, Section, LastAddressed, Short, Overrides, Block;
    if section != map[] { BlockAt(section, n); }
  }

  lemma OverridesUnderName(variant: Variant, component: Component, rest: seq<string>)
    ensures var section := Section(Settings(variant), component);
      At(Overrides(variant), [NameOf(component)] + rest)
      == if section == map[] then None else At(Dict(map["ros__parameters" := Dict(section)]), rest)
  {
    OverridesHoldBlocks(variant);
    var all := Overrides(variant);
    assert all.Dict?;
    hide Settings, Section, Overrides;
    var section := Section(Settings(variant), component);
    assert ([NameOf(component)] + rest)[1..] == rest && ([NameOf(component)] + rest)[0] == NameOf(component);
    assert NameOf(Sender) == SENDER && NameOf(Responder) == RESPONDER;
    assert section != map[] ==> all.m[NameOf(component)] == Dict(map["ros__parameters" := Dict(section)]);
  }

  lemma BlockAt(section: map<string, Value>, n: string)
    ensures At(Dict(map["ros__parameters" := Dict(section)]), ["ros__parameters", n]) == Found(section, n)
  {
    var outer := Dict(map["ros__parameters" := Dict(section)]);
    assert ["ros__parameters", n][1..] == [n] && [n][1..] == [];
    assert At(outer, ["ros__parameters", n]) == At(outer.m["ros__parameters"], [n]);
    assert n in section ==> At(Dict(section), [n]) == At(section[n], []);
  }

  /** A long axis is its component, a colon or a dot, and the parameter; the parameter section may stand in between. */
  lemma LongAxisIsRead(component: Component, separator: char, name: string)
    requires (separator == ':' || separator == '.') && name != "" && Trimmed(name)
    requires !("ros__parameters" + [separator] <= name)
    ensures Addressed(NameOf(component) + [separator] + name) == Some((component, name))
    ensures Addressed(NameOf(component) + [separator] + ("ros__parameters" + [separator] + name))
         == Some((component, name))
  {
    hide Addressed;
    HeadIsRead(component, separator, name, name);
    var section := "ros__parameters" + [separator];
    var inner := section + name;
    assert Trimmed(inner) by { assert inner[|inner| - 1] == name[|name| - 1] && inner[0] == 'r'; }
    assert section <= inner && inner[|section|..] == name;
    HeadIsRead(component, separator, inner, name);
  }

  lemma TailIsRead(component: string, separator: char, tail: string, name: string)
    requires Trimmed(tail) && Trimmed(name)
    requires var section := "ros__parameters" + [separator];
      name == if section <= tail then tail[|section|..] else tail
    ensures Tail(component + [separator] + tail, component, separator) == Some(name)
  {
    hide Trim;
    var head := component + [separator];
    assert (head + tail)[|head|..] == tail;
  }

  /** What stands behind the component and the separator, with and without the parameter section. */
  lemma HeadIsRead(component: Component, separator: char, tail: string, name: string)
    requires (separator == ':' || separator == '.') && tail != "" && Trimmed(tail) && name != "" && Trimmed(name)
    requires var section := "ros__parameters" + [separator];
      name == if section <= tail then tail[|section|..] else tail
    ensures Addressed(NameOf(component) + [separator] + tail) == Some((component, name))
  {
    var axis := NameOf(component) + [separator] + tail;
    assert Trim(axis) == axis by { assert axis[|axis| - 1] == tail[|tail| - 1] && axis[0] == 'i'; }
    TailIsRead(NameOf(component), separator, tail, name);
    forall c: Component, s | (s == ':' || s == '.') && !(c == component && s == separator)
      ensures Tail(axis, NameOf(c), s).None?
    {
      OtherHead(component, separator, tail, c, s);
    }
    assert Tail(axis, NameOf(component), separator) == Some(name);
    AddressedByTails(axis, component, separator, name);
  }

  lemma AddressedByTails(axis: string, component: Component, separator: char, name: string)
    requires Trim(axis) == axis && (separator == ':' || separator == '.') && name != ""
    requires Tail(axis, NameOf(component), separator) == Some(name)
    requires forall c: Component, s | (s == ':' || s == '.') && !(c == component && s == separator) ::
      Tail(axis, NameOf(c), s).None?
    ensures Addressed(axis) == Some((component, name))
  {
    hide Tail, Trim;
    assert NameOf(Sender) == SENDER && NameOf(Responder) == RESPONDER;
  }

  lemma OtherHead(component: Component, separator: char, tail: string, c: Component, s: char)
    requires (s == ':' || s == '.') && (separator == ':' || separator == '.') && !(c == component && s == separator)
    ensures Tail(NameOf(component) + [separator] + tail, NameOf(c), s).None?
  {
    hide Trim;
    var axis, head := NameOf(component) + [separator] + tail, NameOf(c) + [s];
    if c == component {
      assert axis[|NameOf(c)|] == separator && head[|NameOf(c)|] == s;
    } else {
      assert "icopa_sender"[6] == 's' && "icopa_responder"[6] == 'r';
      assert axis[6] == NameOf(component)[6] && head[6] == NameOf(c)[6];
    }
    assert !(head <= axis);
  }
}
