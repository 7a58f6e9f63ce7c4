/** Parsing action targets and resolving them to the VM nodes of a scenario. */
module Targeting {
  import opened Values
  import opened Ordering

  /** A scenario node as written: name, kind and `ref` untrimmed, `site` the value of labels.site when
      the node has labels. */
  datatype Node = Node(name: string, kind: string, ref: string, site: Option<string>)

  datatype TargetRef = TargetRef(kind: string, name: string)

  datatype TargetError =
    | MissingRef | EmptyTarget | IncompleteRef | ClusterReserved
    | UnsupportedKind(kind: string) | VmNotFound(name: string) | SiteNotFound(name: string)

  function NodeName(node: Node): string { Trim(node.name) }

  function NodeKind(node: Node): string { Lower(Trim(node.kind)) }

  predicate IsVm(node: Node) { NodeName(node) != "" && NodeKind(node) == "vm" }

  function VmNames(nodes: seq<Node>): set<string> {
    set node | node in nodes && IsVm(node) :: NodeName(node)
  }

  /** The VM nodes whose site label is `name`. */
  function SiteMembers(nodes: seq<Node>, name: string): set<string> {
    set node | node in nodes && IsVm(node) && node.site.Some? && Trim(node.site.value) == name :: NodeName(node)
  }

  // ---------------------------------------------------------------- parsing

  /** `text.find(c)`, with the length standing for "not found". */
  function Find(text: string, c: char): (i: nat)
    ensures i <= |text| && (i < |text| ==> text[i] == c) && forall j | 0 <= j < i :: text[j] != c
  {
    if text == "" || text[0] == c then 0 else 1 + Find(text[1..], c)
  }

  /** The first occurrence of the character counts as a delimiter: it exists and is not at the front. */
  predicate Delimits(text: string, c: char) {
    0 < Find(text, c) < |text|
  }

  /** Neither delimiter splits the text, so it is read as a plain VM name. */
  predicate DelimiterFree(text: string) {
    !Delimits(text, '/') && !Delimits(text, ':')
  }

  /** Where a namespaced target splits: at the earlier of its two delimiters. */
  function SplitAt(text: string): (i: nat)
    requires !DelimiterFree(text)
    ensures 0 < i < |text| && text[i] in "/:"
  {
    var slash, colon := Find(text, '/'), Find(text, ':');
    if Delimits(text, '/') && (!Delimits(text, ':') || slash < colon) then slash else colon
  }

  function ParseTarget(raw: string): Result<TargetRef, TargetError> {
    var text := Trim(raw);
    if text == "" then Err(EmptyTarget)
    else if DelimiterFree(text) then Ok(TargetRef("vm", text))
    else
      var i := SplitAt(text);
      var kind, name := Lower(Trim(text[..i])), Trim(text[i + 1..]);
      if kind == "" || name == "" then Err(IncompleteRef) else Ok(TargetRef(kind, name))
  }

  /** `_target_ref_from_string` with its delimiter loop. */
  method TargetRefFromString(raw: string) returns (r: Result<TargetRef, TargetError>)
    ensures r == ParseTarget(raw)
  {
    hide Trim, Lower, Find;
    var text := Trim(raw);
    if text == "" { return Err(EmptyTarget); }
    var delimiterIndex := -1;
    var delimiters := "/:";
    for d := 0 to 2
      invariant delimiterIndex == if d == 0 then -1
        else if d == 1 then (if Delimits(text, '/') then Find(text, '/') else -1)
        else if DelimiterFree(text) then -1 else SplitAt(text)
    {
      var candidate := Find(text, delimiters[d]);
      if 0 < candidate < |text| && (delimiterIndex < 0 || candidate < delimiterIndex) { delimiterIndex := candidate; }
    }
    if delimiterIndex < 0 { return Ok(TargetRef("vm", text)); }
    var kind, name := Lower(Trim(text[..delimiterIndex])), Trim(text[delimiterIndex + 1..]);
    r := if kind == "" || name == "" then Err(IncompleteRef) else Ok(TargetRef(kind, name));
  }

  lemma {:induction false} TrimShortens(s: string)
    ensures |Trim(s)| <= |s|
  {
    TrimLeftShortens(s);
  }

  lemma {:induction false} TrimLeftShortens(s: string)
    ensures |TrimLeft(s)| <= |s|
  {
    if s != "" && IsSpace(s[0]) { TrimLeftShortens(s[1..]); }
  }

  /** A node name read back as a target denotes that node exactly when no delimiter splits it. */
  lemma ReparseExactly(name: string)
    requires name != "" && Trimmed(name)
    ensures ParseTarget(name) == Ok(TargetRef("vm", name)) <==> DelimiterFree(name)
  {
    if !DelimiterFree(name) { TrimShortens(name[SplitAt(name) + 1..]); }
  }

  /** `str(value or "")`; `show` is Python's `str` on values that are not strings. */
  function Text(v: Value, show: Value -> string): string {
    if v.Str? then v.s else if v.Truthy() then show(v) else ""
  }

  function Checked(ref: Result<TargetRef, TargetError>): Result<TargetRef, TargetError> {
    if ref.Err? then ref
    else if ref.value.kind == "cluster" then Err(ClusterReserved)
    else if ref.value.kind != "vm" && ref.value.kind != "site" then Err(UnsupportedKind(ref.value.kind))
    else ref
  }

  /** A reference written as an object. */
  function RefOfObject(m: map<string, Value>, show: Value -> string): Result<TargetRef, TargetError> {
    var ref := TargetRef(Lower(Trim(Text(Get(m, "kind"), show))), Trim(Text(Get(m, "name"), show)));
    if ref.kind == "" || ref.name == "" then Err(IncompleteRef) else Ok(ref)
  }

  /** A present `targetRef` value: an object, or anything else read as text. */
  function RefOfValue(raw: Value, show: Value -> string): Result<TargetRef, TargetError> {
    match raw
    case Dict(m) => Checked(RefOfObject(m, show))
    case Str(s) => Checked(ParseTarget(s))
    case _ => Checked(ParseTarget(show(raw)))
  }

  /** One entry of `targets`: like a `targetRef`, but a falsy entry is the empty text. */
  function RefOfTarget(raw: Value, show: Value -> string): Result<TargetRef, TargetError> {
    if raw.Dict? then RefOfValue(raw, show) else Checked(ParseTarget(Text(raw, show)))
  }

  /** `parse_action_target_ref`: the canonical target of an action, or MissingRef when it names none. */
  function ParseActionRef(action: map<string, Value>, show: Value -> string): Result<TargetRef, TargetError> {
    var ref, target := Get(action, "targetRef"), Get(action, "target");
    if !ref.Blank() then RefOfValue(ref, show)
    else if target.Blank() then Err(MissingRef)
    else Checked(ParseTarget(if target.Str? then target.s else show(target)))
  }

  // ---------------------------------------------------------------- resolving

  /** What a reference stands for: one existing VM node, or every VM node of a site in sorted order. */
  function Resolved(ref: TargetRef, nodes: seq<Node>): (r: Result<seq<string>, TargetError>)
    ensures r.Ok? ==> r.value != [] && Ascending(r.value, StrLess) && forall n | n in r.value :: n in VmNames(nodes)
  {
    if ref.kind == "" || ref.name == "" then Err(IncompleteRef)
    else if ref.kind == "vm" then
      if ref.name in VmNames(nodes) then Ok([ref.name]) else Err(VmNotFound(ref.name))
    else
      var members := SiteMembers(nodes, ref.name);
      if members == {} then Err(SiteNotFound(ref.name))
      else
        var m :| m in members;
        assert m in SortedNames(members);
        Ok(SortedNames(members))
  }

  /** `resolve_target_ref_to_vm_nodes`: its scan for a named VM and its collection of a site. */
  method ResolveTargetRef(ref: TargetRef, nodes: seq<Node>) returns (r: Result<seq<string>, TargetError>)
    ensures r == Resolved(ref, nodes)
  {
    if ref.kind == "" || ref.name == "" { return Err(IncompleteRef); }
    if ref.kind == "vm" {
      for i := 0 to |nodes|
        invariant ref.name !in VmNames(nodes[..i])
      {
        if IsVm(nodes[i]) && NodeName(nodes[i]) == ref.name { return Ok([ref.name]); }
      }
      assert nodes[..|nodes|] == nodes;
      return Err(VmNotFound(ref.name));
    }
    var matched: set<string> := {};
    for i := 0 to |nodes|
      invariant matched == SiteMembers(nodes[..i], ref.name)
    {
      var node := nodes[i];
      assert forall n :: n in nodes[..i + 1] <==> n in nodes[..i] || n == node;
      if IsVm(node) && node.site.Some? && Trim(node.site.value) == ref.name { matched := matched + {NodeName(node)}; }
    }
    assert nodes[..|nodes|] == nodes;
    r := if matched == {} then Err(SiteNotFound(ref.name)) else Ok(SortedNames(matched));
  }

  function ResolvedRef(ref: Result<TargetRef, TargetError>, nodes: seq<Node>): Result<seq<string>, TargetError> {
    if ref.Err? then Err(ref.error) else Resolved(ref.value, nodes)
  }

  function Elements(names: seq<string>): set<string> {
    set n | n in names
  }

  /** The nodes of a list of references; the first reference that fails decides the error. */
  function ResolvedAll(refs: seq<Result<TargetRef, TargetError>>,
      nodes: seq<Node>): (r: Result<set<string>, TargetError>)
    ensures r.Ok? ==> r.value <= VmNames(nodes)
  {
    if refs == [] then Ok({})
    else
      var first, rest := ResolvedRef(refs[0], nodes), ResolvedAll(refs[1..], nodes);
      if first.Err? then Err(first.error) else if rest.Err? then rest else Ok(Elements(first.value) + rest.value)
  }

  method ResolveRefs(refs: seq<Result<TargetRef, TargetError>>, nodes: seq<Node>)
    returns (r: Result<set<string>, TargetError>)
    ensures r == ResolvedAll(refs, nodes)
  {
    hide Resolved, VmNames, Elements;
    var resolved: set<string> := {};
    assert refs[0..] == refs;
    ghost var all := ResolvedAll(refs, nodes);
    assert all.Ok? ==> {} + all.value == all.value;
    for i := 0 to |refs|
      invariant Joined(resolved, ResolvedAll(refs[i..], nodes)) == all
    {
      assert refs[i..][1..] == refs[i + 1..];
      if refs[i].Err? { return Err(refs[i].error); }
      var names := ResolveTargetRef(refs[i].value, nodes);
      if names.Err? { return Err(names.error); }
      JoinedTwice(resolved, Elements(names.value), ResolvedAll(refs[i + 1..], nodes));
      resolved := resolved + Elements(names.value);
    }
    r := Ok(resolved);
  }

  ghost function Joined(names: set<string>, rest: Result<set<string>, TargetError>): Result<set<string>, TargetError> {
    if rest.Ok? then Ok(names + rest.value) else rest
  }

  lemma JoinedTwice(a: set<string>, b: set<string>, rest: Result<set<string>, TargetError>)
    ensures Joined(a, Joined(b, rest)) == Joined(a + b, rest)
  {
    if rest.Ok? { assert a + (b + rest.value) == (a + b) + rest.value; }
  }

  /** References that resolve at all resolve to at least one node. */
  lemma ResolvedAllNonEmpty(refs: seq<Result<TargetRef, TargetError>>, nodes: seq<Node>)
    requires refs != [] && ResolvedAll(refs, nodes).Ok?
    ensures ResolvedAll(refs, nodes).value != {}
  {
    var first := ResolvedRef(refs[0], nodes);
    assert first.value[0] in Elements(first.value);
  }

  // ---------------------------------------------------------------- normalised targets

  function RefTo(name: string): Value {
    Dict(map["kind" := Str("vm"), "name" := Str(name)])
  }

  function TextList(names: seq<string>): Value {
    List(seq(|names|, i requires 0 <= i < |names| => Str(names[i])))
  }

  function TargetRefs(items: seq<Value>, show: Value -> string): seq<Result<TargetRef, TargetError>> {
    seq(|items|, i requires 0 <= i < |items| => RefOfTarget(items[i], show))
  }

  function AimedAt(action: map<string, Value>, name: string): map<string, Value> {
    action["target" := Str(name)]["targetRef" := RefTo(name)]
  }

  /** What `normalize_action_targets` makes of an action: one copy per resolved node, or the same
      action with its target list resolved, sorted and without duplicates. */
  function Targeted(action: map<string, Value>, nodes: seq<Node>, show: Value -> string)
    : (r: Result<seq<map<string, Value>>, TargetError>)
    ensures r.Ok? ==> r.value != []
  {
    var ref, targets := ParseActionRef(action, show), Get(action, "targets");
    if ref != Err(MissingRef) then
      var names := ResolvedRef(ref, nodes);
      if names.Err? then Err(names.error)
      else Ok(seq(|names.value|, i requires 0 <= i < |names.value| => AimedAt(action, names.value[i])))
    else if !targets.List? then Ok([action])
    else
      var names := ResolvedAll(TargetRefs(targets.items, show), nodes);
      if names.Err? then Err(names.error) else Ok([action["targets" := TextList(SortedNames(names.value))]])
  }

  method AimAtEach(action: map<string, Value>, names: seq<string>) returns (expanded: seq<map<string, Value>>)
    ensures expanded == seq(|names|, i requires 0 <= i < |names| => AimedAt(action, names[i]))
  {
    hide AimedAt;
    expanded := [];
    for i := 0 to |names|
      invariant |expanded| == i && forall j | 0 <= j < i :: expanded[j] == AimedAt(action, names[j])
    {
      expanded := expanded + [AimedAt(action, names[i])];
    }
  }

  method NormalizeActionTargets(action: map<string, Value>, nodes: seq<Node>, show: Value -> string)
    returns (r: Result<seq<map<string, Value>>, TargetError>)
    ensures r == Targeted(action, nodes, show)
  {
    hide AimedAt, ParseActionRef, Resolved, ResolvedAll, TargetRefs, TextList;
    var ref, targets := ParseActionRef(action, show), Get(action, "targets");
    if ref != Err(MissingRef) {
      if ref.Err? { return Err(ref.error); }
      var names := ResolveTargetRef(ref.value, nodes);
      if names.Err? { return Err(names.error); }
      var expanded := AimAtEach(action, names.value);
      r := Ok(expanded);
    } else if !targets.List? {
      r := Ok([action]);
    } else {
      var names := ResolveRefs(TargetRefs(targets.items, show), nodes);
      r := if names.Err? then Err(names.error) else Ok([action["targets" := TextList(SortedNames(names.value))]]);
    }
  }

  lemma RefToIsRead(name: string, show: Value -> string)
    requires name != "" && Trimmed(name)
    ensures RefOfValue(RefTo(name), show) == Ok(TargetRef("vm", name))
  {
    assert Lower("vm") == "vm";
    var m := RefTo(name).m;
    hide Trim, Lower;
    assert Text(Get(m, "kind"), show) == "vm" && Text(Get(m, "name"), show) == name;
    assert Trim("vm") == "vm" by { VmIsTrimmed(); }
  }

  lemma VmIsTrimmed()
    ensures Trim("vm") == "vm"
  {
  }

  /** Aiming an action that is already aimed at a VM node of the scenario changes nothing. */
  lemma AimedActionIsFixed(action: map<string, Value>, name: string, nodes: seq<Node>, show: Value -> string)
    requires name in VmNames(nodes)
    requires Get(action, "targetRef") == RefTo(name) && Get(action, "target") == Str(name)
    ensures Targeted(action, nodes, show) == Ok([action])
  {
    RefToIsRead(name, show);
    hide RefOfValue, ResolvedAll;
    assert ParseActionRef(action, show) == Ok(TargetRef("vm", name));
    assert AimedAt(action, name) == action;
    assert Targeted(action, nodes, show).value == [action];
  }

  /** The name, read back as a target, denotes its node: no delimiter splits it, or it spells a site of which
      it is the only VM. */
  predicate SelfReading(name: string, nodes: seq<Node>) {
    || DelimiterFree(name)
    || (ParseTarget(name).Ok? && ParseTarget(name).value.kind == "site"
        && SiteMembers(nodes, ParseTarget(name).value.name) == {name})
  }

  lemma VmNamesAreTrimmed(nodes: seq<Node>)
    ensures forall n | n in VmNames(nodes) :: n != "" && Trimmed(n)
  {
  }

  lemma SortedIsOne(names: set<string>, name: string)
    ensures SortedNames(names) == [name] <==> names == {name}
  {
    if names == {name} { SortedNamesOfAscending([name], {name}); }
    if SortedNames(names) == [name] {
      forall x ensures x in names <==> x == name { assert x in names <==> x in [name]; }
    }
  }

  lemma SiteResolvesToExactly(ref: TargetRef, name: string, nodes: seq<Node>)
    requires ref.kind == "site" && ref.name != ""
    ensures Resolved(ref, nodes) == Ok([name]) <==> SiteMembers(nodes, ref.name) == {name}
  {
    SortedIsOne(SiteMembers(nodes, ref.name), name);
    hide SiteMembers, VmNames, StrLess;
  }

  /** A VM name resolves to itself alone exactly when it is self-reading. */
  lemma ReadsItselfExactly(name: string, nodes: seq<Node>)
    requires name in VmNames(nodes)
    ensures ResolvedRef(Checked(ParseTarget(name)), nodes) == Ok([name]) <==> SelfReading(name, nodes)
  {
    VmNamesAreTrimmed(nodes);
    hide VmNames, SiteMembers, Trimmed, DelimiterFree;
    ReparseExactly(name);
    var ref := ParseTarget(name);
    if ref.Ok? && ref.value.kind == "site" {
      ParsedRefsAreComplete(name);
      SiteResolvesToExactly(ref.value, name, nodes);
    }
  }

  lemma ParsedRefsAreComplete(raw: string)
    ensures ParseTarget(raw).Ok? ==> ParseTarget(raw).value.kind != "" && ParseTarget(raw).value.name != ""
  {
  }

  lemma {:induction false} SelfReadingNamesResolve(names: seq<string>, nodes: seq<Node>, show: Value -> string)
    requires forall n | n in names :: n in VmNames(nodes) && SelfReading(n, nodes)
    ensures ResolvedAll(TargetRefs(TextList(names).items, show), nodes) == Ok(Elements(names))
    decreases |names|
  {
    hide VmNames, SelfReading, ParseTarget, Checked, Resolved;
    var refs := TargetRefs(TextList(names).items, show);
    if names == [] {
      assert Elements(names) == {};
    } else {
      assert names[0] in names;
      ReadsItselfExactly(names[0], nodes);
      assert refs[0] == Checked(ParseTarget(names[0]));
      assert refs[1..] == TargetRefs(TextList(names[1..]).items, show);
      SelfReadingNamesResolve(names[1..], nodes, show);
      assert Elements(names) == Elements([names[0]]) + Elements(names[1..]);
    }
  }

  /** Resolving a sorted target list of self-reading names changes nothing. */
  lemma TargetListIsFixed(action: map<string, Value>, names: seq<string>, nodes: seq<Node>, show: Value -> string)
    requires Get(action, "targetRef").Blank() && Get(action, "target").Blank()
    requires Get(action, "targets") == TextList(names)
    requires Ascending(names, StrLess) && forall n | n in names :: n in VmNames(nodes) && SelfReading(n, nodes)
    ensures Targeted(action, nodes, show) == Ok([action])
  {
    hide SelfReading, VmNames;
    SelfReadingNamesResolve(names, nodes, show);
    SortedNamesOfAscending(names, Elements(names));
    assert action["targets" := TextList(names)] == action;
  }

  function Listing(names: seq<string>): map<string, Value> {
    map["targets" := TextList(names)]
  }

  lemma OneName(name: string, show: Value -> string)
    ensures TargetRefs(TextList([name]).items, show) == [Checked(ParseTarget(name))]
  {
    hide Checked, ParseTarget;
    assert TextList([name]).items[0] == Str(name);
  }

  /** A listed name alone stays only if it resolves to itself. */
  lemma FixedNameReadsItself(name: string, nodes: seq<Node>, show: Value -> string)
    requires name in VmNames(nodes) && Targeted(Listing([name]), nodes, show) == Ok([Listing([name])])
    ensures SelfReading(name, nodes)
  {
    hide VmNames, SelfReading, ParseTarget, Checked, Resolved;
    var refs := TargetRefs(TextList([name]).items, show);
    OneName(name, show);
    ReadsItselfExactly(name, nodes);
    assert refs[1..] == [];
    var all := ResolvedAll(refs, nodes);
    assert Listing([name])["targets" := TextList(SortedNames(all.value))]["targets"] == TextList([name]);
    assert TextList(SortedNames(all.value)).items == TextList([name]).items;
    assert |SortedNames(all.value)| == 1;
    assert TextList(SortedNames(all.value)).items[0] == TextList([name]).items[0];
    assert SortedNames(all.value) == [name];
    assert ResolvedAll(refs[1..], nodes) == Ok({});
    assert all.value == Elements(ResolvedRef(refs[0], nodes).value) + {};
    AscendingOnly(ResolvedRef(refs[0], nodes).value, all.value, name);
  }

  lemma AscendingOnly(names: seq<string>, all: set<string>, name: string)
    requires names != [] && Ascending(names, StrLess) && Elements(names) + {} == all && SortedNames(all) == [name]
    ensures names == [name]
  {
    forall n ensures n in names <==> n in all {}
    SortedNamesOfAscending(names, all);
  }

  /** Every ascending list of VM names comes through the resolution unchanged exactly when every VM name is
      self-reading. */
  lemma ListsAreFixedExactly(nodes: seq<Node>, show: Value -> string)
    ensures (forall names: seq<string> | Ascending(names, StrLess) && forall n | n in names :: n in VmNames(nodes) ::
              Targeted(Listing(names), nodes, show) == Ok([Listing(names)]))
            <==> forall n | n in VmNames(nodes) :: SelfReading(n, nodes)
  {
    hide VmNames, SelfReading, Targeted, StrLess;
    if forall n | n in VmNames(nodes) :: SelfReading(n, nodes) {
      forall names: seq<string> | Ascending(names, StrLess) && forall n | n in names :: n in VmNames(nodes)
        ensures Targeted(Listing(names), nodes, show) == Ok([Listing(names)])
      {
        TargetListIsFixed(Listing(names), names, nodes, show);
      }
    }
    if forall names: seq<string> | Ascending(names, StrLess) && forall n | n in names :: n in VmNames(nodes) ::
        Targeted(Listing(names), nodes, show) == Ok([Listing(names)])
    {
      forall n | n in VmNames(nodes) ensures SelfReading(n, nodes) {
        assert Ascending([n], StrLess) && forall m | m in [n] :: m in VmNames(nodes);
        FixedNameReadsItself(n, nodes, show);
      }
    }
  }

  lemma SplitsThere(text: string, n: nat)
    requires 0 < n < |text| && (text[n] == '/' || text[n] == ':')
    requires forall i | 0 <= i < n :: text[i] != '/' && text[i] != ':'
    ensures !DelimiterFree(text) && SplitAt(text) == n
  {
    assert Find(text, text[n]) == n;
  }

  lemma KindIsRead(kind: string)
    requires kind == "vm" || kind == "site"
    ensures Lower(kind) == kind && Trimmed(kind)
  {
  }

  /** A name behind a kind and a delimiter is read as a reference of that kind, whatever delimiters the name has. */
  lemma NamespacedIsRead(kind: string, delimiter: char, name: string)
    requires kind == "vm" || kind == "site"
    requires (delimiter == '/' || delimiter == ':') && name != "" && Trimmed(name)
    ensures ParseTarget(kind + [delimiter] + name) == Ok(TargetRef(kind, name))
  {
    var text := kind + [delimiter] + name;
    var n := |kind|;
    KindIsRead(kind);
    hide Trim, Lower, Find, SplitAt, DelimiterFree;
    forall i | 0 <= i < n ensures text[i] != '/' && text[i] != ':' { assert text[i] == kind[i]; }
    assert text[n] == delimiter && text[n + 1..] == name && text[..n] == kind;
    SplitsThere(text, n);
    assert Trimmed(text) by { assert text[|text| - 1] == name[|name| - 1] && text[0] == kind[0]; }
  }

  /** A reference that is an object says its kind and its name. */
  lemma ObjectIsRead(kind: string, name: string, show: Value -> string)
    requires (kind == "vm" || kind == "site") && name != "" && Trimmed(name)
    ensures RefOfValue(Dict(map["kind" := Str(kind), "name" := Str(name)]), show) == Ok(TargetRef(kind, name))
  {
    var m := map["kind" := Str(kind), "name" := Str(name)];
    KindIsRead(kind);
    hide Trim, Lower;
    assert Text(Get(m, "kind"), show) == kind && Text(Get(m, "name"), show) == name;
  }

  /** What a reference means: the VM nodes with this name, or those whose site label it is. A node is a VM node when
      its kind is `vm` in any case, surrounding whitespace aside, and its name is not blank. */
  function Meant(ref: TargetRef, nodes: seq<Node>): set<string> {
    set node | node in nodes && Trim(node.name) != "" && Lower(Trim(node.kind)) == "vm"
               && (if ref.kind == "vm" then Trim(node.name) == ref.name
                   else node.site.Some? && Trim(node.site.value) == ref.name) :: Trim(node.name)
  }

  /** A complete reference resolves exactly when it means some VM node, and then to all it means. */
  lemma ResolvedExactly(ref: TargetRef, nodes: seq<Node>)
    ensures Resolved(ref, nodes).Ok? <==> ref.kind != "" && ref.name != "" && Meant(ref, nodes) != {}
    ensures Resolved(ref, nodes).Ok? ==> Elements(Resolved(ref, nodes).value) == Meant(ref, nodes)
  {
    hide Trim, Lower, StrLess;
    if ref.kind == "vm" {
      if ref.name in VmNames(nodes) {
        var node :| node in nodes && IsVm(node) && NodeName(node) == ref.name;
        assert ref.name in Meant(ref, nodes);
        assert Meant(ref, nodes) == {ref.name} == Elements([ref.name]);
      } else {
        assert Meant(ref, nodes) == {};
      }
    } else {
      assert SiteMembers(nodes, ref.name) == Meant(ref, nodes);
    }
  }

  /** Why a reference does not resolve: it is incomplete, or it means no VM node and the error names what is missing. */
  lemma UnresolvedIsJustified(ref: TargetRef, nodes: seq<Node>)
    requires Resolved(ref, nodes).Err?
    ensures Resolved(ref, nodes).error ==
      if ref.kind == "" || ref.name == "" then IncompleteRef
      else if ref.kind == "vm" then VmNotFound(ref.name) else SiteNotFound(ref.name)
  {
  }

  /** Only VMs and sites can be targets; the kind `cluster` is reserved. */
  lemma KindsAreChecked(kind: string, name: string)
    ensures Checked(Ok(TargetRef(kind, name))) ==
      if kind == "vm" || kind == "site" then Ok(TargetRef(kind, name))
      else if kind == "cluster" then Err(ClusterReserved) else Err(UnsupportedKind(kind))
  {
  }

  /** Resolution touches nothing but where an action is aimed. */
  lemma TargetedKeepsTheRest(action: map<string, Value>, nodes: seq<Node>, show: Value -> string, key: string)
    requires Targeted(action, nodes, show).Ok? && key !in {"target", "targetRef", "targets"}
    ensures forall b | b in Targeted(action, nodes, show).value :: Get(b, key) == Get(action, key)
  {
    hide ParseActionRef, Resolved, ResolvedAll, RefTo, TextList;
  }

  lemma OneNameResolves(name: string, nodes: seq<Node>)
    requires name in VmNames(nodes)
    ensures ResolvedAll([Ok(TargetRef("vm", name))], nodes) == Ok({name})
  {
    hide VmNames;
    assert name != "" by { VmNamesAreTrimmed(nodes); }
    var refs: seq<Result<TargetRef, TargetError>> := [Ok(TargetRef("vm", name))];
    assert refs[1..] == [];
    assert ResolvedRef(refs[0], nodes) == Ok([name]);
    assert Elements([name]) + {} == {name};
  }

  /** So a listed node whose own name is the namespaced spelling of another node is replaced by that node. */
  lemma SplitNameIsRedirected(name: string, nodes: seq<Node>, show: Value -> string)
    requires name in VmNames(nodes)
    ensures Targeted(map["targets" := TextList(["vm/" + name])], nodes, show)
        == Ok([map["targets" := TextList([name])]])
  {
    VmNamesAreTrimmed(nodes);
    hide ParseTarget, Trimmed, VmNames, ResolvedAll, Elements, StrLess;
    NamespacedIsRead("vm", '/', name);
    assert "vm" + ['/'] + name == "vm/" + name;
    var action: map<string, Value> := map["targets" := TextList(["vm/" + name])];
    var refs := TargetRefs(TextList(["vm/" + name]).items, show);
    assert refs == [Ok(TargetRef("vm", name))];
    OneNameResolves(name, nodes);
    SortedNamesOfAscending([name], {name});
    assert action["targets" := TextList([name])] == map["targets" := TextList([name])];
  }
}
