/** Loading the command presets of a runtime environment and the groups that list them. */
module RuntimePresets {
  import opened Values
  import opened Sequences

  datatype Preset = Preset(name: string, executor: string, command: string)

  datatype LoadError = NotAList | InvalidEntry | ConflictingPreset | NoPresets

  /** The presets by name, and per group the names in the order in which they first appeared. */
  datatype Index = Index(presets: map<string, Preset>, groups: map<string, seq<string>>)

  /** A list of entries under the name of its group. */
  type Block = (string, Value)

  function Nonblank(v: Value): Option<string> {
    if v.Str? && Trim(v.s) != "" then Some(v.s) else None
  }

  /** `_parse_preset_entry`. */
  function Parsed(entry: Value): Option<Preset> {
    if !entry.Dict? || Nonblank(Get(entry.m, "name")).None? then None
    else if "run" in entry.m && !entry.m["run"].Dict? then None
    else
      var fields := if "run" in entry.m then entry.m["run"].m else entry.m;
      var executor := Nonblank(if "executor" in fields then fields["executor"] else Str("auto"));
      var command := Nonblank(Get(fields, "command"));
      if executor.None? || command.None? then None
      else Some(Preset(Trim(Nonblank(Get(entry.m, "name")).value), Trim(executor.value), command.value))
  }

  /** A preset as a specification writes it: its fields beside the name, or in an object under `run`. */
  function Flat(p: Preset): Value {
    Dict(map["name" := Str(p.name), "executor" := Str(p.executor), "command" := Str(p.command)])
  }

  function Nested(p: Preset): Value {
    Dict(map["name" := Str(p.name), "run" := Dict(map["executor" := Str(p.executor), "command" := Str(p.command)])])
  }

  /** A preset of trimmed name and executor is read as it is written in either form, and without an executor it gets
      the automatic one. */
  lemma WrittenIsRead(p: Preset)
    requires p.name != "" && Trimmed(p.name) && p.executor != "" && Trimmed(p.executor) && Trim(p.command) != ""
    ensures Parsed(Flat(p)) == Parsed(Nested(p)) == Some(p)
    ensures Parsed(Dict(Flat(p).m - {"executor"})) == Some(p.(executor := "auto"))
  {
    assert Trimmed("auto");
    hide Trim;
    var bare := Flat(p).m - {"executor"};
    assert "run" !in bare && Get(bare, "name") == Str(p.name) && Get(bare, "command") == Str(p.command);
  }

  /** What is read from an entry is not blank anywhere, and the name and the executor are trimmed. */
  lemma ReadIsFilled(entry: Value)
    requires Parsed(entry).Some?
    ensures var p := Parsed(entry).value;
      p.name != "" && Trimmed(p.name) && p.executor != "" && Trimmed(p.executor) && Trim(p.command) != ""
  {
    hide Trim;
  }

  /** One turn of `_add_presets`. */
  function Add(ix: Index, group: string, entry: Value): Result<Index, LoadError> {
    var p := Parsed(entry);
    if p.None? then Err(InvalidEntry)
    else
      var name := p.value.name;
      if name in ix.presets && ix.presets[name] != p.value then Err(ConflictingPreset)
      else
        Ok(Index(ix.presets[name := p.value],
                 ix.groups[group := Added(if group in ix.groups then ix.groups[group] else [], name)]))
  }

  function AddAll(ix: Index, group: string, entries: seq<Value>): Result<Index, LoadError>
    decreases |entries|
  {
    if entries == [] then Ok(ix)
    else
      var first := Add(ix, group, entries[0]);
      if first.Err? then first else AddAll(first.value, group, entries[1..])
  }

  lemma AddAllSteps(ix: Index, group: string, entries: seq<Value>, i: nat)
    requires i < |entries|
    ensures AddAll(ix, group, entries[i..]) ==
      var first := Add(ix, group, entries[i]);
      if first.Err? then first else AddAll(first.value, group, entries[i + 1..])
  {
    assert entries[i..][1..] == entries[i + 1..];
  }

  lemma AddAllEnds(ix: Index, group: string, entries: seq<Value>)
    ensures AddAll(ix, group, entries[|entries|..]) == Ok(ix)
  {
  }

  function AddBlocks(ix: Index, blocks: seq<Block>): Result<Index, LoadError>
    decreases |blocks|
  {
    if blocks == [] then Ok(ix)
    else if !blocks[0].1.List? then Err(NotAList)
    else
      var first := AddAll(ix, blocks[0].0, blocks[0].1.items);
      if first.Err? then first else AddBlocks(first.value, blocks[1..])
  }

  /** The preset part of `from_dict`: the spec's own presets form the group "default", then come the groups. */
  function Blocks(own: Option<Value>, groups: seq<Block>): seq<Block> {
    (if own.Some? then [("default", own.value)] else []) + groups
  }

  function Loaded(own: Option<Value>, groups: seq<Block>): Result<Index, LoadError> {
    var ix := AddBlocks(Index(map[], map[]), Blocks(own, groups));
    if ix.Ok? && ix.value.presets == map[] then Err(NoPresets) else ix
  }

  /** `get_group_presets`. */
  function GroupPresets(ix: Index, group: string): Option<seq<Preset>> {
    var names := if group in ix.groups then ix.groups[group] else [];
    if names == [] || exists n | n in names :: n !in ix.presets then None
    else Some(seq(|names|, i requires 0 <= i < |names| => ix.presets[names[i]]))
  }

  class Loader {
    var presets: map<string, Preset>
    var groups: map<string, seq<string>>

    constructor ()
      ensures presets == map[] && groups == map[]
    {
      presets, groups := map[], map[];
    }

    method AddPresets(group: string, entries: seq<Value>) returns (error: Option<LoadError>)
      modifies this
      ensures AddAll(Index(old(presets), old(groups)), group, entries)
              == if error.Some? then Err(error.value) else Ok(Index(presets, groups))
    {
      hide AddAll, Parsed;
      ghost var start := Index(presets, groups);
      assert entries[0..] == entries;
      for i := 0 to |entries|
        invariant AddAll(start, group, entries) == AddAll(Index(presets, groups), group, entries[i..])
      {
        ghost var before := Index(presets, groups);
        AddAllSteps(before, group, entries, i);
        var parsed := Parsed(entries[i]);
        if parsed.None? { return Some(InvalidEntry); }
        var preset := parsed.value;
        if preset.name !in presets {
          presets := presets[preset.name := preset];
        } else if presets[preset.name] != preset {
          return Some(ConflictingPreset);
        }
        assert presets == before.presets[preset.name := preset];
        if group !in groups { groups := groups[group := []]; }
        if preset.name !in groups[group] { groups := groups[group := groups[group] + [preset.name]]; }
        assert groups == before.groups[group := Added(if group in before.groups then before.groups[group] else [], preset.name)];
      }
      error := None;
      AddAllEnds(Index(presets, groups), group, entries);
    }

    method Load(own: Option<Value>, others: seq<Block>) returns (r: Result<Index, LoadError>)
      requires presets == map[] && groups == map[]
      modifies this
      ensures r == Loaded(own, others)
    {
      hide AddAll;
      ghost var blocks := Blocks(own, others);
      ghost var start := Index(map[], map[]);
      if own.Some? {
        if !own.value.List? { return Err(NotAList); }
        var error := AddPresets("default", own.value.items);
        assert blocks[1..] == others;
        if error.Some? { return Err(error.value); }
      } else {
        assert blocks == others;
      }
      assert others[0..] == others;
      for i := 0 to |others|
        invariant AddBlocks(start, blocks) == AddBlocks(Index(presets, groups), others[i..])
      {
        assert others[i..][1..] == others[i + 1..];
        if !others[i].1.List? { return Err(NotAList); }
        var error := AddPresets(others[i].0, others[i].1.items);
        if error.Some? { return Err(error.value); }
      }
      if presets == map[] { return Err(NoPresets); }
      r := Ok(Index(presets, groups));
    }
  }

  // ---------------------------------------------------------------- what a load accepts and yields

  /** The entries with their groups, in reading order. */
  function Entries(blocks: seq<Block>): seq<Block> {
    if blocks == [] then []
    else
      (if blocks[0].1.List? then Tagged(blocks[0].0, blocks[0].1.items) else []) + Entries(blocks[1..])
  }

  function Tagged(group: string, entries: seq<Value>): seq<Block> {
    seq(|entries|, i requires 0 <= i < |entries| => (group, entries[i]))
  }

  /** All entries are presets, and entries of one name say the same. */
  ghost predicate Compatible(entries: seq<Block>) {
    && (forall e | e in entries :: Parsed(e.1).Some?)
    && forall d, e | d in entries && e in entries && Parsed(d.1).value.name == Parsed(e.1).value.name ::
        Parsed(d.1) == Parsed(e.1)
  }

  /** The names a group lists, in reading order with repeats. */
  function NamesIn(entries: seq<Block>, group: string): seq<string>
    requires forall e | e in entries :: Parsed(e.1).Some?
  {
    if entries == [] then []
    else
      var last := entries[|entries| - 1];
      NamesIn(entries[..|entries| - 1], group) + if last.0 == group then [Parsed(last.1).value.name] else []
  }

  /** The index holds exactly these entries. */
  ghost predicate Represents(ix: Index, entries: seq<Block>) {
    && Compatible(entries)
    && ix.presets.Keys == (set e | e in entries :: Parsed(e.1).value.name)
    && (forall e | e in entries :: ix.presets[Parsed(e.1).value.name] == Parsed(e.1).value)
    && ix.groups.Keys == (set e | e in entries :: e.0)
    && (forall g | g in ix.groups :: ix.groups[g] == Dedup(NamesIn(entries, g)) && ix.groups[g] != [])
  }

  lemma AddExactly(ix: Index, done: seq<Block>, e: Block)
    requires Represents(ix, done)
    ensures Add(ix, e.0, e.1).Ok? <==> Compatible(done + [e])
    ensures Add(ix, e.0, e.1).Ok? ==> Represents(Add(ix, e.0, e.1).value, done + [e])
  {
    hide Parsed, NamesIn, Add, Compatible;
    AddAccepts(ix, done, e);
    if Add(ix, e.0, e.1).Ok? {
      AddKeepsPresets(ix, done, e);
      AddKeepsGroups(ix, done, e);
    }
  }

  lemma AddKeepsPresets(ix: Index, done: seq<Block>, e: Block)
    requires Represents(ix, done) && Add(ix, e.0, e.1).Ok? && Compatible(done + [e])
    ensures var after, all := Add(ix, e.0, e.1).value, done + [e];
      && after.presets.Keys == (set d | d in all :: Parsed(d.1).value.name)
      && forall d | d in all :: after.presets[Parsed(d.1).value.name] == Parsed(d.1).value
  {
    hide Parsed, NamesIn;
    assert forall d :: d in done + [e] <==> d in done || d == e;
  }

  lemma AddKeepsGroups(ix: Index, done: seq<Block>, e: Block)
    requires Represents(ix, done) && Add(ix, e.0, e.1).Ok? && Compatible(done + [e])
    ensures var after, all := Add(ix, e.0, e.1).value, done + [e];
      && after.groups.Keys == (set d | d in all :: d.0)
      && forall g | g in after.groups :: after.groups[g] == Dedup(NamesIn(all, g)) && after.groups[g] != []
  {
    hide Parsed, NamesIn;
    var after, all := Add(ix, e.0, e.1).value, done + [e];
    assert forall d :: d in all <==> d in done || d == e;
    forall g | g in after.groups ensures after.groups[g] == Dedup(NamesIn(all, g)) && after.groups[g] != [] {
      NamesStep(done, e, g);
      if g !in ix.groups { NoNames(done, g); }
    }
  }

  lemma AddAccepts(ix: Index, done: seq<Block>, e: Block)
    requires Represents(ix, done)
    ensures Add(ix, e.0, e.1).Ok? <==> Compatible(done + [e])
  {
    hide Parsed, NamesIn;
    assert e in done + [e];
    if Compatible(done + [e]) && Parsed(e.1).value.name in ix.presets {
      var d :| d in done && Parsed(d.1).value.name == Parsed(e.1).value.name;
      assert d in done + [e];
    }
  }

  lemma NamesStep(done: seq<Block>, e: Block, g: string)
    requires forall d | d in done + [e] :: Parsed(d.1).Some?
    ensures (forall d | d in done :: Parsed(d.1).Some?) && Parsed(e.1).Some?
    ensures Dedup(NamesIn(done + [e], g)) ==
            if e.0 == g then Added(Dedup(NamesIn(done, g)), Parsed(e.1).value.name) else Dedup(NamesIn(done, g))
  {
    hide Parsed;
    var all := done + [e];
    assert all[|all| - 1] == e && all[..|all| - 1] == done;
    assert forall d | d in done :: d in all;
    assert e in all;
    if e.0 == g {
      var names := NamesIn(done, g) + [Parsed(e.1).value.name];
      assert names[..|names| - 1] == NamesIn(done, g);
    } else {
      assert NamesIn(done, g) + [] == NamesIn(done, g);
    }
  }

  lemma {:induction false} NoNames(done: seq<Block>, g: string)
    requires (forall d | d in done :: Parsed(d.1).Some?) && forall d | d in done :: d.0 != g
    ensures NamesIn(done, g) == []
  {
    if done != [] { NoNames(done[..|done| - 1], g); }
  }

  lemma {:induction false} AddAllExactly(ix: Index, done: seq<Block>, group: string, entries: seq<Value>)
    requires Represents(ix, done)
    ensures AddAll(ix, group, entries).Ok? <==> Compatible(done + Tagged(group, entries))
    ensures AddAll(ix, group, entries).Ok? ==> Represents(AddAll(ix, group, entries).value, done + Tagged(group, entries))
    decreases |entries|
  {
    hide Represents, Compatible, Add;
    if entries == [] {
      assert done + Tagged(group, entries) == done;
      RepresentsCompatible(ix, done);
    } else {
      var e := (group, entries[0]);
      AddExactly(ix, done, e);
      assert done + Tagged(group, entries) == done + [e] + Tagged(group, entries[1..]);
      if Add(ix, group, entries[0]).Ok? {
        AddAllExactly(Add(ix, group, entries[0]).value, done + [e], group, entries[1..]);
      } else {
        PrefixIsCompatible(done + [e], Tagged(group, entries[1..]));
      }
    }
  }

  lemma RepresentsCompatible(ix: Index, entries: seq<Block>)
    requires Represents(ix, entries)
    ensures Compatible(entries)
  {
  }

  lemma PrefixIsCompatible(a: seq<Block>, b: seq<Block>)
    ensures Compatible(a + b) ==> Compatible(a)
  {
    assert forall e | e in a :: e in a + b;
  }

  ghost predicate AllLists(blocks: seq<Block>) {
    forall b | b in blocks :: b.1.List?
  }

  lemma {:induction false} AddBlocksExactly(ix: Index, done: seq<Block>, blocks: seq<Block>)
    requires Represents(ix, done)
    ensures AddBlocks(ix, blocks).Ok? <==> AllLists(blocks) && Compatible(done + Entries(blocks))
    ensures AddBlocks(ix, blocks).Ok? ==> Represents(AddBlocks(ix, blocks).value, done + Entries(blocks))
    decreases |blocks|
  {
    hide Represents, Compatible, AddAll;
    if blocks == [] {
      assert done + Entries(blocks) == done;
      RepresentsCompatible(ix, done);
    } else if blocks[0].1.List? {
      var own := Tagged(blocks[0].0, blocks[0].1.items);
      AddAllExactly(ix, done, blocks[0].0, blocks[0].1.items);
      assert done + Entries(blocks) == done + own + Entries(blocks[1..]);
      assert AllLists(blocks) <==> AllLists(blocks[1..]) by { assert blocks == [blocks[0]] + blocks[1..]; }
      var first := AddAll(ix, blocks[0].0, blocks[0].1.items);
      if first.Ok? {
        AddBlocksExactly(first.value, done + own, blocks[1..]);
      } else {
        PrefixIsCompatible(done + own, Entries(blocks[1..]));
      }
    }
  }

  /** A load is accepted exactly when every block is a list, every entry is a preset, entries that share a name are
      equal, and there is an entry at all; it then yields exactly the presets of the entries, and each group lists
      the names of its entries without repeats in order of first appearance. */
  lemma LoadSucceedsExactly(own: Option<Value>, groups: seq<Block>)
    ensures var blocks := Blocks(own, groups);
      && (Loaded(own, groups).Ok? <==> AllLists(blocks) && Compatible(Entries(blocks)) && Entries(blocks) != [])
      && (Loaded(own, groups).Ok? ==> Represents(Loaded(own, groups).value, Entries(blocks)))
  {
    var blocks := Blocks(own, groups);
    var start, ix := Index(map[], map[]), AddBlocks(Index(map[], map[]), blocks);
    assert Represents(start, []);
    hide AddBlocks, Compatible, Represents, Entries, Blocks, AllLists;
    AddBlocksExactly(start, [], blocks);
    assert [] + Entries(blocks) == Entries(blocks);
    if ix.Ok? { SomePresetExactly(ix.value, Entries(blocks)); }
  }

  lemma SomePresetExactly(ix: Index, entries: seq<Block>)
    requires Represents(ix, entries)
    ensures ix.presets == map[] <==> entries == []
  {
    hide Parsed, NamesIn;
    if entries != [] { assert entries[0] in entries && Parsed(entries[0].1).value.name in ix.presets; }
  }

  lemma {:induction false} EntriesAre(blocks: seq<Block>)
    ensures forall e :: e in Entries(blocks) <==> exists b | b in blocks :: b.1.List? && b.0 == e.0 && e.1 in b.1.items
  {
    if blocks != [] {
      EntriesAre(blocks[1..]);
      assert blocks == [blocks[0]] + blocks[1..];
      if blocks[0].1.List? {
        var own := Tagged(blocks[0].0, blocks[0].1.items);
        forall e ensures e in own <==> e.0 == blocks[0].0 && e.1 in blocks[0].1.items {
          if e.0 == blocks[0].0 && e.1 in blocks[0].1.items {
            var i :| 0 <= i < |blocks[0].1.items| && blocks[0].1.items[i] == e.1;
            assert own[i] == e;
          }
        }
      }
    }
  }

  lemma SameBlocksSameEntries(a: seq<Block>, b: seq<Block>, e: Block)
    requires forall x | x in a :: x in b
    requires e in Entries(a)
    ensures e in Entries(b)
  {
    EntriesAre(a);
    EntriesAre(b);
  }

  lemma SameEntriesSamePresets(ix: Index, iy: Index, a: seq<Block>, b: seq<Block>)
    requires Represents(ix, a) && Represents(iy, b) && forall e :: e in a <==> e in b
    ensures ix.presets == iy.presets
  {
    hide Parsed, NamesIn;
    forall n | n in ix.presets ensures n in iy.presets && ix.presets[n] == iy.presets[n] {
      var e :| e in a && Parsed(e.1).value.name == n;
      assert e in b;
    }
    forall n | n in iy.presets ensures n in ix.presets {
      var e :| e in b && Parsed(e.1).value.name == n;
      assert e in a;
    }
  }

  lemma SameEntriesSameVerdict(a: seq<Block>, b: seq<Block>)
    requires forall e :: e in a <==> e in b
    ensures Compatible(a) <==> Compatible(b)
    ensures a == [] <==> b == []
  {
    hide Parsed;
    if a != [] { assert a[0] in b; }
    if b != [] { assert b[0] in a; }
  }

  /** Whether a load is accepted, and with which presets, does not depend on the order of the groups. */
  lemma OrderOfGroupsIsIrrelevant(own: Option<Value>, groups: seq<Block>, shuffled: seq<Block>)
    requires forall b :: b in groups <==> b in shuffled
    ensures Loaded(own, groups).Ok? <==> Loaded(own, shuffled).Ok?
    ensures Loaded(own, groups).Ok? ==> Loaded(own, groups).value.presets == Loaded(own, shuffled).value.presets
  {
    hide Loaded, Compatible, Represents, Entries;
    LoadSucceedsExactly(own, groups);
    LoadSucceedsExactly(own, shuffled);
    var a, b := Blocks(own, groups), Blocks(own, shuffled);
    forall x ensures x in a <==> x in b {}
    forall e ensures e in Entries(a) <==> e in Entries(b) {
      if e in Entries(a) { SameBlocksSameEntries(a, b, e); }
      if e in Entries(b) { SameBlocksSameEntries(b, a, e); }
    }
    SameEntriesSameVerdict(Entries(a), Entries(b));
    if Loaded(own, groups).Ok? {
      SameEntriesSamePresets(Loaded(own, groups).value, Loaded(own, shuffled).value, Entries(a), Entries(b));
    }
  }

  /** Every group of a loaded environment lists at least one name, no name twice, and resolves. */
  lemma GroupsResolve(own: Option<Value>, groups: seq<Block>, group: string)
    requires Loaded(own, groups).Ok? && group in Loaded(own, groups).value.groups
    ensures var ix := Loaded(own, groups).value;
      && Distinct(ix.groups[group]) && GroupPresets(ix, group).Some?
      && |GroupPresets(ix, group).value| == |ix.groups[group]| > 0
      && forall i | 0 <= i < |ix.groups[group]| :: GroupPresets(ix, group).value[i].name == ix.groups[group][i]
  {
    hide Parsed, Loaded, Entries;
    LoadSucceedsExactly(own, groups);
    var ix, entries := Loaded(own, groups).value, Entries(Blocks(own, groups));
    NamesComeFromEntries(entries, group);
    forall n | n in ix.groups[group] ensures n in ix.presets && ix.presets[n].name == n {
      assert n in NamesIn(entries, group);
    }
  }

  lemma {:induction false} NamesComeFromEntries(entries: seq<Block>, group: string)
    requires forall e | e in entries :: Parsed(e.1).Some?
    ensures forall n | n in NamesIn(entries, group) :: exists e | e in entries :: Parsed(e.1).value.name == n
  {
    hide Parsed;
    if entries != [] { NamesComeFromEntries(entries[..|entries| - 1], group); }
  }
}
