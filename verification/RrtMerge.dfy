/** The recursive dictionary merge behind every RRT configuration, and the renderers built on it. */
module RrtMerge {
  import opened Values

  /** What merging `over` into `base` gives: objects merge key by key, anything else is replaced. */
  function Merged(base: Value, over: Value): (r: Value)
    decreases over
    ensures base.Dict? && over.Dict? ==> r.Dict? && r.m.Keys == base.m.Keys + over.m.Keys
  {
    if base.Dict? && over.Dict? then
      Dict(map k | k in base.m.Keys + over.m.Keys ::
        if k !in over.m then base.m[k]
        else if k !in base.m then over.m[k]
        else Merged(base.m[k], over.m[k]))
    else over
  }

  /** The merge as the code runs it: copy the base, then assign the override's keys one at a time,
      recursing where both sides hold an object. The keys are taken in an arbitrary order. */
  method DeepMergeDict(base: Value, over: Value) returns (r: Value)
    requires base.Dict? && over.Dict?
    ensures r == Merged(base, over)
    decreases over
  {
    ghost var target := Merged(base, over).m;
    var merged := base.m;
    var keys := over.m.Keys;
    while keys != {}
      invariant keys <= over.m.Keys
      invariant merged.Keys == base.m.Keys + (over.m.Keys - keys)
      invariant forall k | k in merged :: merged[k] == if k in keys then base.m[k] else target[k]
      decreases keys
    {
      var key :| key in keys;
      var value := over.m[key];
      assert target[key] == if key in base.m then Merged(base.m[key], value) else value;
      assert key in merged <==> key in base.m;
      if key in merged && merged[key].Dict? && value.Dict? {
        value := DeepMergeDict(merged[key], value);
      }
      merged := merged[key := value];
      keys := keys - {key};
    }
    r := Dict(merged);
    assert r.m == target;
  }

  /** Merging the same overrides twice is merging them once. */
  lemma {:induction false} MergeTwiceIsOnce(base: Value, over: Value)
    ensures Merged(Merged(base, over), over) == Merged(base, over)
    decreases over
  {
    MergeOverSelf(over);
    if base.Dict? && over.Dict? {
      var once := Merged(base, over);
      forall k | k in once.m && k in over.m
        ensures Merged(once.m[k], over.m[k]) == once.m[k]
      {
        MergeOverSelf(over.m[k]);
        if k in base.m { MergeTwiceIsOnce(base.m[k], over.m[k]); }
      }
      assert Merged(once, over).m == once.m;
    }
  }

  lemma {:induction false} MergeOverSelf(v: Value)
    ensures Merged(v, v) == v
  {
    if v.Dict? {
      forall k | k in v.m ensures Merged(v.m[k], v.m[k]) == v.m[k] { MergeOverSelf(v.m[k]); }
      assert Merged(v, v).m == v.m;
    }
  }

  lemma MergeIntoEmpty(over: Value)
    requires over.Dict?
    ensures Merged(Dict(map[]), over) == over
  {
    assert Merged(Dict(map[]), over).m == over.m;
  }

  /** Result of a renderer: the dumped document (None is the empty string), or a rejection. */
  datatype Rendering = Rendered(doc: Option<Value>) | Rejected

  /** The executor's renderers. `raw` is the stored configuration, None when its text is blank. */
  function RenderEffective(raw: Option<Value>, overrides: Value): Rendering
    requires overrides.Dict?
  {
    if raw.None? && overrides.m == map[] then Rendered(None)
    else if raw.Some? && !raw.value.Null? && !raw.value.Dict? then Rejected
    else
      var base := if raw.Some? && raw.value.Dict? then raw.value else Dict(map[]);
      Rendered(Some(if overrides.m != map[] then Merged(base, overrides) else base))
  }

  /** The renderer used when runs are generated: every falsy document counts as an empty object. */
  function RenderSnapshot(raw: Option<Value>, overrides: Value): Rendering
    requires overrides.Dict?
  {
    if raw.None? && overrides.m == map[] then Rendered(None)
    else if raw.Some? && raw.value.Truthy() && !raw.value.Dict? then Rejected
    else
      var base := if raw.Some? && raw.value.Dict? then raw.value else Dict(map[]);
      Rendered(Some(if overrides.m != map[] then Merged(base, overrides) else base))
  }

  /** The text stored with the run: nothing after a rejection. */
  function StoredYaml(r: Rendering): Option<Value> {
    if r.Rendered? then r.doc else None
  }

  /** The configuration a profiling action runs with. `own` and `ownYaml` are the action's own
      parameters, `auto` the overrides derived from the variant, `stored` the run's snapshot. */
  function EffectiveConfig(raw: Option<Value>, own: Option<Value>, ownYaml: Option<Value>,
                           stored: Option<Value>, auto: Value): Rendering
    requires auto.Dict? && (own.Some? ==> own.value.Dict?)
  {
    var mine := if own.Some? then own.value else Dict(map[]);
    var overrides := if auto.m == map[] then mine else if own.Some? then Merged(mine, auto) else auto;
    if stored.Some? then Rendered(stored)
    else if ownYaml.Some? then Rendered(ownYaml)
    else RenderEffective(raw, overrides)
  }

  /** A stored document that the two kinds of renderer read differently: falsy, yet neither null nor an object. */
  predicate FalsyScalar(raw: Option<Value>) {
    raw.Some? && !raw.value.Truthy() && !raw.value.Null? && !raw.value.Dict?
  }

  /** The renderers agree on every stored document except the falsy scalars and the empty list. */
  lemma RenderersAgreeExactly(raw: Option<Value>, overrides: Value)
    requires overrides.Dict?
    ensures RenderSnapshot(raw, overrides) == RenderEffective(raw, overrides) <==> !FalsyScalar(raw)
  {
    if raw.Some? && raw.value.Dict? { assert raw.value.m == map[] || raw.value.Truthy(); }
  }

  /** An action without parameters of its own gets from the precomputed snapshot what recomputation
      would give, again except for falsy scalar documents. */
  lemma SnapshotMatchesRecomputation(raw: Option<Value>, auto: Value)
    requires auto.Dict?
    ensures EffectiveConfig(raw, None, None, StoredYaml(RenderSnapshot(raw, auto)), auto)
            == EffectiveConfig(raw, None, None, None, auto)
            <==> !FalsyScalar(raw)
  {
    RenderersAgreeExactly(raw, auto);
  }

  /** The same question for an action that has overrides of its own: the snapshot ignores them, and
      that is harmless for every base object exactly when the automatic overrides already win everywhere. */
  lemma OwnOverridesSurviveExactly(own: Value, auto: Value)
    requires own.Dict? && auto.Dict?
    ensures (forall base: Value | base.Dict? ::
               EffectiveConfig(Some(base), Some(own), None, StoredYaml(RenderSnapshot(Some(base), auto)), auto)
               == EffectiveConfig(Some(base), Some(own), None, None, auto))
            <==> Merged(own, auto) == auto
  {
    var empty := Dict(map[]);
    MergeIntoEmpty(auto);
    MergeIntoEmpty(Merged(own, auto));
    MergeWithEmpty(own);
    if forall base: Value | base.Dict? ::
        EffectiveConfig(Some(base), Some(own), None, StoredYaml(RenderSnapshot(Some(base), auto)), auto)
        == EffectiveConfig(Some(base), Some(own), None, None, auto)
    {
      assert EffectiveConfig(Some(empty), Some(own), None, StoredYaml(RenderSnapshot(Some(empty), auto)), auto)
             == EffectiveConfig(Some(empty), Some(own), None, None, auto);
      MergeIntoEmpty(own);
    }
  }

  lemma MergeWithEmpty(base: Value)
    requires base.Dict?
    ensures Merged(base, Dict(map[])) == base
  {
    assert Merged(base, Dict(map[])).m == base.m;
  }
}
