/** The generation-time check that variant overrides fit the stored RRT configuration. It flattens the
    overrides to dotted texts and looks each one up in the base. */
module RrtCheck {
  import opened Values
  import opened RrtMerge

  // ---------------------------------------------------------------- dotted texts

  /** `[part for part in text.split(".") if part]`. */
  function Segments(text: string): (r: seq<string>) {
    SegmentsFrom(text, "")
  }

  function SegmentsFrom(text: string, current: string): seq<string> {
    var closed := if current == "" then [] else [current];
    if text == "" then closed
    else if text[0] == '.' then closed + SegmentsFrom(text[1..], "")
    else SegmentsFrom(text[1..], current + [text[0]])
  }

  predicate PlainKey(key: string) {
    key != "" && '.' !in key
  }

  function Extend(prefix: string, key: string): string {
    if prefix != "" then prefix + "." + key else key
  }

  /** The dotted text the code builds for a path of keys. */
  function PathText(prefix: string, path: seq<string>): string
    decreases path
  {
    if path == [] then prefix else PathText(Extend(prefix, path[0]), path[1..])
  }

  /** The segments each key of a path falls into when it is split again. */
  function SegmentsOf(path: seq<string>): seq<string> {
    if path == [] then [] else Segments(path[0]) + SegmentsOf(path[1..])
  }

  lemma {:induction false} SegmentsFromDot(a: string, b: string, current: string)
    ensures SegmentsFrom(a + "." + b, current) == SegmentsFrom(a, current) + Segments(b)
    decreases a
  {
    var whole := a + "." + b;
    if a == "" {
      assert whole[1..] == b;
    } else {
      assert whole[0] == a[0] && whole[1..] == a[1..] + "." + b;
      SegmentsFromDot(a[1..], b, if a[0] == '.' then "" else current + [a[0]]);
    }
  }

  lemma {:induction false} SegmentsFromPlain(text: string, current: string)
    requires '.' !in text
    ensures SegmentsFrom(text, current) == if current + text == "" then [] else [current + text]
    decreases text
  {
    if text == "" {
      assert current + text == current;
    } else {
      SegmentsFromPlain(text[1..], current + [text[0]]);
      assert current + [text[0]] + text[1..] == current + text;
    }
  }

  lemma {:induction false} SegmentsArePlain(text: string, current: string)
    requires '.' !in current
    ensures forall s | s in SegmentsFrom(text, current) :: PlainKey(s)
    decreases text
  {
    if text != "" {
      if text[0] == '.' { SegmentsArePlain(text[1..], ""); } else { SegmentsArePlain(text[1..], current + [text[0]]); }
    }
  }

  /** Splitting undoes joining, key by key. */
  lemma {:induction false} SplitAfterJoin(prefix: string, path: seq<string>)
    ensures Segments(PathText(prefix, path)) == Segments(prefix) + SegmentsOf(path)
    decreases path
  {
    if path == [] {
    } else {
      SplitAfterJoin(Extend(prefix, path[0]), path[1..]);
      if prefix != "" { SegmentsFromDot(prefix, path[0], ""); }
      assert Segments(prefix) + Segments(path[0]) + SegmentsOf(path[1..]) == Segments(prefix) + SegmentsOf(path);
    }
  }

  /** For plain keys joining and splitting are inverse to each other. */
  lemma {:induction false} SplitOfPlainPath(path: seq<string>)
    requires forall k | k in path :: PlainKey(k)
    ensures SegmentsOf(path) == path
    ensures Segments(PathText("", path)) == path
  {
    SplitAfterJoin("", path);
    if path != [] {
      assert path[0] in path;
      SegmentsFromPlain(path[0], "");
      assert "" + path[0] == path[0];
      SplitOfPlainPath(path[1..]);
    }
  }

  lemma {:induction false} SegmentsOfArePlain(path: seq<string>)
    ensures forall s | s in SegmentsOf(path) :: PlainKey(s)
  {
    if path != [] {
      SegmentsArePlain(path[0], "");
      SegmentsOfArePlain(path[1..]);
    }
  }

  // ---------------------------------------------------------------- paths in a document

  /** The document has these keys, one inside the other. */
  predicate HasKeys(v: Value, path: seq<string>)
    decreases path
  {
    path == [] || (v.Dict? && path[0] in v.m && HasKeys(v.m[path[0]], path[1..]))
  }

  /** The path leads to something that is not an object. */
  predicate LeafPath(v: Value, path: seq<string>)
    decreases path
  {
    if path == [] then !v.Dict?
    else v.Dict? && path[0] in v.m && LeafPath(v.m[path[0]], path[1..])
  }

  /** The path leads to an empty object. */
  predicate EmptyAt(v: Value, path: seq<string>)
    decreases path
  {
    if path == [] then v == Dict(map[])
    else v.Dict? && path[0] in v.m && EmptyAt(v.m[path[0]], path[1..])
  }

  predicate PlainKeys(v: Value) {
    v.Dict? ==> forall k | k in v.m :: PlainKey(k) && PlainKeys(v.m[k])
  }

  /** No object inside `v` is empty (`v` itself may be). */
  predicate NoEmptyInside(v: Value) {
    v.Dict? ==> forall k | k in v.m :: v.m[k] != Dict(map[]) && NoEmptyInside(v.m[k])
  }

  /** What the check accepts. */
  ghost predicate Accepted(base: Value, over: Value) {
    forall path | LeafPath(over, path) :: HasKeys(base, SegmentsOf(path))
  }

  /** What the check is for: merging adds no key path that the base did not have. */
  ghost predicate NoNewKeys(base: Value, over: Value) {
    forall path | HasKeys(Merged(base, over), path) :: HasKeys(base, path)
  }

  // ---------------------------------------------------------------- the check as the code runs it

  ghost predicate LeafText(v: Value, prefix: string, text: string) {
    text != "" && exists path :: LeafPath(v, path) && PathText(prefix, path) == text
  }

  method FlattenLeafPaths(payload: Value, prefix: string) returns (out: seq<string>)
    ensures forall text :: text in out <==> LeafText(payload, prefix, text)
    decreases payload
  {
    out := [];
    if payload.Dict? {
      var keys := payload.m.Keys;
      while keys != {}
        invariant keys <= payload.m.Keys
        invariant forall text :: text in out <==>
          exists k | k in payload.m && k !in keys :: LeafText(payload.m[k], Extend(prefix, k), text)
        decreases keys
      {
        var key :| key in keys;
        var inner := FlattenLeafPaths(payload.m[key], Extend(prefix, key));
        out := out + inner;
        keys := keys - {key};
      }
      forall text ensures text in out <==> LeafText(payload, prefix, text) { LeafTextOfObject(payload, prefix, text); }
    } else {
      if prefix != "" { out := [prefix]; }
      assert LeafPath(payload, []) && PathText(prefix, []) == prefix;
    }
  }

  lemma LeafTextOfObject(v: Value, prefix: string, text: string)
    requires v.Dict?
    ensures LeafText(v, prefix, text) <==> exists k | k in v.m :: LeafText(v.m[k], Extend(prefix, k), text)
  {
    if LeafText(v, prefix, text) {
      var path :| LeafPath(v, path) && PathText(prefix, path) == text;
      assert LeafPath(v.m[path[0]], path[1..]);
    }
    if k :| k in v.m && LeafText(v.m[k], Extend(prefix, k), text) {
      var path :| LeafPath(v.m[k], path) && PathText(Extend(prefix, k), path) == text;
      assert ([k] + path)[1..] == path;
      assert LeafPath(v, [k] + path) && PathText(prefix, [k] + path) == text;
    }
  }

  method HasPath(payload: Value, path: string) returns (found: bool)
    requires payload.Dict?
    ensures found <==> HasKeys(payload, Segments(path))
  {
    var node, segments := payload, Segments(path);
    for i := 0 to |segments|
      invariant HasKeys(payload, segments) <==> HasKeys(node, segments[i..])
    {
      if !node.Dict? || segments[i] !in node.m { return false; }
      node := node.m[segments[i]];
      assert segments[i..][1..] == segments[i + 1..];
    }
    return true;
  }

  /** The flattened override paths the base does not have; none of them is what `Accepted` says. */
  method MissingPaths(base: Value, over: Value) returns (missing: seq<string>)
    requires base.Dict? && over.Dict?
    ensures forall text :: text in missing <==> LeafText(over, "", text) && !HasKeys(base, Segments(text))
    ensures missing == [] <==> Accepted(base, over)
  {
    var paths := FlattenLeafPaths(over, "");
    missing := [];
    for i := 0 to |paths|
      invariant forall text :: text in missing <==> text in paths[..i] && !HasKeys(base, Segments(text))
    {
      var found := HasPath(base, paths[i]);
      if !found { missing := missing + [paths[i]]; }
    }
    assert paths[..|paths|] == paths;
    if missing == [] {
      forall path | LeafPath(over, path) ensures HasKeys(base, SegmentsOf(path)) {
        SplitAfterJoin("", path);
        assert Segments("") + SegmentsOf(path) == SegmentsOf(path);
        var text := PathText("", path);
        assert text == "" || LeafText(over, "", text);
        assert text !in missing;
      }
    } else {
      assert missing[0] in missing;
      var path :| LeafPath(over, path) && PathText("", path) == missing[0];
      SplitAfterJoin("", path);
      assert Segments("") + SegmentsOf(path) == SegmentsOf(path);
    }
  }

  // ---------------------------------------------------------------- when the check is right

  lemma {:induction false} MergedKeys(base: Value, over: Value, path: seq<string>)
    requires base.Dict?
    ensures HasKeys(over, path) ==> HasKeys(Merged(base, over), path)
    ensures HasKeys(Merged(base, over), path) ==> HasKeys(base, path) || HasKeys(over, path)
    decreases path
  {
    if path != [] && over.Dict? {
      var k := path[0];
      if k in base.m && k in over.m {
        assert Merged(base, over).m[k] == Merged(base.m[k], over.m[k]);
        if base.m[k].Dict? { MergedKeys(base.m[k], over.m[k], path[1..]); }
      }
    }
  }

  lemma {:induction false} LeafPathHasKeys(v: Value, path: seq<string>, shorter: seq<string>)
    requires LeafPath(v, path) || HasKeys(v, path)
    requires shorter <= path
    ensures HasKeys(v, shorter)
    decreases path
  {
    if shorter != [] { LeafPathHasKeys(v.m[path[0]], path[1..], shorter[1..]); }
  }

  /** Below every key of overrides without empty objects there is a leaf. */
  lemma {:induction false} LeafBelow(v: Value, path: seq<string>) returns (leaf: seq<string>)
    requires HasKeys(v, path) && NoEmptyInside(v) && v != Dict(map[])
    ensures path <= leaf && LeafPath(v, leaf)
    decreases v
  {
    if path != [] {
      var rest := LeafBelow(v.m[path[0]], path[1..]);
      leaf := [path[0]] + rest;
    } else if v.Dict? {
      var k :| k in v.m;
      var rest := LeafBelow(v.m[k], []);
      leaf := [k] + rest;
      assert leaf[1..] == rest;
    } else {
      leaf := [];
    }
  }

  lemma {:induction false} PlainAlong(v: Value, path: seq<string>)
    requires PlainKeys(v) && (HasKeys(v, path) || LeafPath(v, path))
    ensures forall k | k in path :: PlainKey(k)
    decreases path
  {
    if path != [] { PlainAlong(v.m[path[0]], path[1..]); }
  }

  /** For plain keys and no empty objects, the check accepts exactly the overrides that add no key path. */
  lemma CheckIsSoundAndComplete(base: Value, over: Value)
    requires base.Dict? && over.Dict? && PlainKeys(over) && NoEmptyInside(over)
    ensures Accepted(base, over) <==> NoNewKeys(base, over)
  {
    if Accepted(base, over) {
      forall path | HasKeys(Merged(base, over), path) ensures HasKeys(base, path) {
        MergedKeys(base, over, path);
        if path != [] && HasKeys(over, path) {
          var leaf := LeafBelow(over, path);
          PlainAlong(over, leaf);
          SplitOfPlainPath(leaf);
          LeafPathHasKeys(base, leaf, path);
        }
      }
    }
    if NoNewKeys(base, over) {
      forall path | LeafPath(over, path) ensures HasKeys(base, SegmentsOf(path)) {
        PlainAlong(over, path);
        SplitOfPlainPath(path);
        LeafPathHasKeys(over, path, path);
        MergedKeys(base, over, path);
      }
    }
  }

  // Outside that condition some base fools the check. The base is built from the segments alone.

  predicate OnlyObjects(v: Value) {
    v.Dict? && forall k | k in v.m :: OnlyObjects(v.m[k])
  }

  function Chain(path: seq<string>, end: Value): Value {
    if path == [] then end else Dict(map[path[0] := Chain(path[1..], end)])
  }

  lemma {:induction false} ChainKeys(path: seq<string>, end: Value, probe: seq<string>)
    requires OnlyObjects(end)
    ensures OnlyObjects(Chain(path, end))
    ensures HasKeys(Chain(path, end), probe) <==> probe <= path || (path <= probe && HasKeys(end, probe[|path|..]))
    decreases path
  {
    if path != [] {
      ChainKeys(path[1..], end, if probe == [] then [] else probe[1..]);
      if probe != [] && path <= probe { assert probe[1..][|path| - 1..] == probe[|path|..]; }
    }
  }

  lemma {:induction false} MergedObjects(a: Value, b: Value)
    requires OnlyObjects(a) && OnlyObjects(b)
    ensures OnlyObjects(Merged(a, b))
    decreases b
  {
    forall k | k in a.m && k in b.m ensures OnlyObjects(Merged(a.m[k], b.m[k])) { MergedObjects(a.m[k], b.m[k]); }
  }

  lemma {:induction false} MergedObjectKeys(a: Value, b: Value, path: seq<string>)
    requires OnlyObjects(a) && OnlyObjects(b)
    ensures HasKeys(Merged(a, b), path) <==> HasKeys(a, path) || HasKeys(b, path)
    decreases path
  {
    if path != [] && path[0] in a.m && path[0] in b.m { MergedObjectKeys(a.m[path[0]], b.m[path[0]], path[1..]); }
  }

  /** A base that satisfies the check for `v` and has no key beyond the segments of its leaf paths. */
  ghost predicate Fools(base: Value, v: Value) {
    OnlyObjects(base) && Accepted(base, v)
    && forall probe | HasKeys(base, probe) && probe != [] :: exists path ::
        LeafPath(v, path) && probe <= SegmentsOf(path)
  }

  lemma {:induction false} FoolingBase(v: Value) returns (base: Value)
    ensures Fools(base, v)
    decreases v
  {
    base := Dict(map[]);
    if v.Dict? {
      var keys := v.m.Keys;
      while keys != {}
        invariant keys <= v.m.Keys
        invariant Fools(base, Dict(v.m - keys))
        decreases keys
      {
        var key :| key in keys;
        var inner := FoolingBase(v.m[key]);
        base := AddBranch(v, keys, key, base, inner);
        keys := keys - {key};
      }
      assert v.m - keys == v.m;
    }
  }

  lemma AddBranch(v: Value, keys: set<string>, key: string, base: Value, inner: Value) returns (next: Value)
    requires v.Dict? && key in keys && keys <= v.m.Keys
    requires Fools(base, Dict(v.m - keys)) && Fools(inner, v.m[key])
    ensures Fools(next, Dict(v.m - (keys - {key})))
  {
    var before, after := v.m - keys, v.m - (keys - {key});
    forall path ensures LeafPath(Dict(after), path) <==>
      LeafPath(Dict(before), path) || (path != [] && path[0] == key && LeafPath(v.m[key], path[1..])) {}
    if some :| LeafPath(v.m[key], some) {
      var branch := Chain(Segments(key), inner);
      next := Merged(base, branch);
      ChainKeys(Segments(key), inner, []);
      MergedObjects(base, branch);
      forall path | LeafPath(Dict(after), path) ensures HasKeys(next, SegmentsOf(path)) {
        MergedObjectKeys(base, branch, SegmentsOf(path));
        if path[0] == key { BranchHasLeaf(key, inner, v.m[key], path); }
      }
      forall probe | HasKeys(next, probe) && probe != []
        ensures exists path :: LeafPath(Dict(after), path) && probe <= SegmentsOf(path)
      {
        MergedObjectKeys(base, branch, probe);
        if HasKeys(base, probe) {
          var path :| LeafPath(Dict(before), path) && probe <= SegmentsOf(path);
          assert LeafPath(Dict(after), path);
        } else {
          var tail := BranchLeaf(key, inner, v.m[key], probe, some);
          assert ([key] + tail)[1..] == tail;
          assert LeafPath(Dict(after), [key] + tail);
        }
      }
    } else {
      next := base;
    }
  }

  lemma BranchHasLeaf(key: string, inner: Value, v: Value, path: seq<string>)
    requires Fools(inner, v) && path != [] && path[0] == key && LeafPath(v, path[1..])
    ensures HasKeys(Chain(Segments(key), inner), SegmentsOf(path))
  {
    ChainKeys(Segments(key), inner, SegmentsOf(path));
    assert SegmentsOf(path)[|Segments(key)|..] == SegmentsOf(path[1..]);
  }

  lemma BranchLeaf(key: string, inner: Value, v: Value, probe: seq<string>, some: seq<string>)
    returns (tail: seq<string>)
    requires Fools(inner, v) && LeafPath(v, some) && HasKeys(Chain(Segments(key), inner), probe)
    ensures LeafPath(v, tail) && probe <= SegmentsOf([key] + tail)
  {
    var own := Segments(key);
    ChainKeys(own, inner, probe);
    hide Segments, HasKeys, Chain;
    tail := some;
    if !(probe <= own) && probe[|own|..] != [] {
      tail :| LeafPath(v, tail) && probe[|own|..] <= SegmentsOf(tail);
      assert probe == own + probe[|own|..];
    }
    assert ([key] + tail)[1..] == tail;
    assert SegmentsOf([key] + tail) == own + SegmentsOf(tail);
  }

  lemma {:induction false} OddKey(v: Value) returns (path: seq<string>)
    requires !PlainKeys(v)
    ensures path != [] && HasKeys(v, path) && !PlainKey(path[|path| - 1])
    decreases v
  {
    var k :| k in v.m && !(PlainKey(k) && PlainKeys(v.m[k]));
    if !PlainKey(k) { path := [k]; } else {
      var rest := OddKey(v.m[k]);
      path := [k] + rest;
      assert path[1..] == rest;
    }
  }

  lemma {:induction false} EmptyInside(v: Value) returns (path: seq<string>)
    requires !NoEmptyInside(v)
    ensures path != [] && EmptyAt(v, path) && HasKeys(v, path)
    decreases v
  {
    var k :| k in v.m && !(v.m[k] != Dict(map[]) && NoEmptyInside(v.m[k]));
    if v.m[k] == Dict(map[]) { path := [k]; } else {
      var rest := EmptyInside(v.m[k]);
      path := [k] + rest;
      assert path[1..] == rest;
    }
  }

  lemma {:induction false} NoLeafBelowEmpty(v: Value, path: seq<string>, leaf: seq<string>)
    requires EmptyAt(v, path) && LeafPath(v, leaf)
    ensures !(path <= leaf)
    decreases path
  {
    if path != [] && leaf != [] && path[0] == leaf[0] { NoLeafBelowEmpty(v.m[path[0]], path[1..], leaf[1..]); }
  }

  /** The check is right for every base exactly when the override keys are non-empty and dot-free and no
      object inside the overrides is empty. */
  lemma CheckIsRightExactly(over: Value)
    requires over.Dict?
    ensures (forall base: Value | base.Dict? :: Accepted(base, over) <==> NoNewKeys(base, over))
            <==> PlainKeys(over) && NoEmptyInside(over)
  {
    if PlainKeys(over) && NoEmptyInside(over) {
      forall base: Value | base.Dict? ensures Accepted(base, over) <==> NoNewKeys(base, over) {
        CheckIsSoundAndComplete(base, over);
      }
    } else {
      var base := FoolingBase(over);
      var odd: seq<string>;
      if !PlainKeys(over) { odd := OddKey(over); } else { odd := EmptyInside(over); }
      MergedKeys(base, over, odd);
      if HasKeys(base, odd) {
        var leaf :| LeafPath(over, leaf) && odd <= SegmentsOf(leaf);
        SegmentsOfArePlain(leaf);
        assert odd[|odd| - 1] in SegmentsOf(leaf);
        PlainAlong(over, leaf);
        SplitOfPlainPath(leaf);
        NoLeafBelowEmpty(over, odd, leaf);
      }
      assert Accepted(base, over) && !NoNewKeys(base, over);
    }
  }
}
