/** What a merged configuration holds, path by path. */
module RrtPaths {
  import opened Values
  import opened RrtMerge

  /** The value that a path of keys leads to. */
  function At(v: Value, path: seq<string>): Option<Value>
    decreases path
  {
    if path == [] then Some(v)
    else if v.Dict? && path[0] in v.m then At(v.m[path[0]], path[1..])
    else None
  }

  /** Along the path there are only objects, up to one that lacks the next key. */
  predicate Untouched(over: Value, path: seq<string>)
    decreases path
  {
    path != [] && over.Dict? && (path[0] in over.m ==> Untouched(over.m[path[0]], path[1..]))
  }

  predicate FilledObject(v: Option<Value>) {
    v.Some? && v.value.Dict? && v.value.m != map[]
  }

  /** Every value in a merge that is no object is one of the overrides, which always win, or one of the base on a path
      that the overrides leave alone; an empty object is one of the base that they leave alone, or one of the overrides
      where the base has no filled one. */
  lemma {:induction false} MergedAtExactly(base: Value, over: Value, path: seq<string>, leaf: Value)
    requires !leaf.Dict? || leaf.m == map[]
    ensures At(Merged(base, over), path) == Some(leaf) <==>
      || (At(over, path) == Some(leaf) && (leaf.Dict? ==> !FilledObject(At(base, path))))
      || (Untouched(over, path) && At(base, path) == Some(leaf))
    decreases path
  {
    if path == [] {
      if leaf.Dict? && base.Dict? && over == leaf { MergeWithEmpty(base); }
      if base.Dict? && over.Dict? && Merged(base, over) == leaf { assert over.m.Keys <= leaf.m.Keys; }
    } else if base.Dict? && over.Dict? {
      var k := path[0];
      if k in base.m && k in over.m {
        assert Merged(base, over).m[k] == Merged(base.m[k], over.m[k]);
        MergedAtExactly(base.m[k], over.m[k], path[1..], leaf);
      } else if k in over.m {
        UntouchedIsMissing(over, path);
      }
    } else {
      if Untouched(over, path) { UntouchedIsMissing(over, path); }
    }
  }

  lemma {:induction false} UntouchedIsMissing(over: Value, path: seq<string>)
    ensures Untouched(over, path) ==> At(over, path).None?
    decreases path
  {
    if path != [] && over.Dict? && path[0] in over.m { UntouchedIsMissing(over.m[path[0]], path[1..]); }
  }

  /** A stored configuration that is no object. */
  predicate NoObject(raw: Option<Value>) {
    raw.Some? && !raw.value.Null? && !raw.value.Dict?
  }

  /** The executor's renderers reject exactly a stored document that is neither null nor an object, and render nothing
      exactly when nothing is stored and nothing overridden; otherwise every value they render that is no object is
      one of the overrides or a stored one on a path that the overrides leave alone. */
  lemma RenderedExactly(raw: Option<Value>, overrides: Value, path: seq<string>, leaf: Value)
    requires overrides.Dict? && !leaf.Dict?
    ensures var r := RenderEffective(raw, overrides);
      && (r == Rejected <==> NoObject(raw))
      && (r == Rendered(None) <==> raw.None? && overrides.m == map[])
      && (r.Rendered? && r.doc.Some? ==>
            (At(r.doc.value, path) == Some(leaf) <==>
               || At(overrides, path) == Some(leaf)
               || (Untouched(overrides, path) && raw.Some? && At(raw.value, path) == Some(leaf))))
  {
    var base := if raw.Some? && raw.value.Dict? then raw.value else Dict(map[]);
    MergedAtExactly(base, overrides, path, leaf);
    MergeWithEmpty(base);
  }

  /** A stored snapshot decides alone, and without one the text an action carries; only then do overrides count, the
      automatic ones before the action's own. */
  lemma PrecedenceExactly(raw: Option<Value>, own: Option<Value>, ownYaml: Option<Value>, stored: Option<Value>,
      auto: Value, path: seq<string>, leaf: Value)
    requires auto.Dict? && (own.Some? ==> own.value.Dict?) && !leaf.Dict?
    ensures var r := EffectiveConfig(raw, own, ownYaml, stored, auto);
      if stored.Some? then r == Rendered(stored)
      else if ownYaml.Some? then r == Rendered(ownYaml)
      else
        && (r == Rejected <==> NoObject(raw))
        && (r.Rendered? && r.doc.Some? ==>
              (At(r.doc.value, path) == Some(leaf) <==>
                 || At(auto, path) == Some(leaf)
                 || (Untouched(auto, path) && own.Some? && At(own.value, path) == Some(leaf))
                 || (Untouched(if own.Some? then Merged(own.value, auto) else auto, path)
                       && raw.Some? && At(raw.value, path) == Some(leaf))))
  {
    var mine := if own.Some? then own.value else Dict(map[]);
    MergedAtExactly(mine, auto, path, leaf);
    MergeWithEmpty(mine);
    MergeIntoEmpty(auto);
    var overrides := Merged(mine, auto);
    RenderedExactly(raw, overrides, path, leaf);
    hide At, Untouched, RenderEffective, Merged;
  }
}
