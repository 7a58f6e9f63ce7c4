/** `${variant.key}` and `${edge.key}` placeholders inside nested documents: finding and rendering them. */
module Templates {
  import opened Values

  datatype Scope = FromVariant | FromEdge

  /** One placeholder: the scope it reads from and the key it names. */
  datatype Ref = Ref(scope: Scope, key: string)

  /** Where placeholder values come from; `edge` is None for a run without an edge. */
  datatype Scopes = Scopes(variant: map<string, Value>, edge: Option<map<string, Value>>)

  datatype Fault = VariantUndefined(key: string) | NoEdgeContext(key: string) | EdgeUndefined(key: string)

  // ---------------------------------------------------------------- the two patterns

  predicate IsIdentStart(c: char) {
    'a' <= c <= 'z' || 'A' <= c <= 'Z' || c == '_'
  }

  predicate IsIdentChar(c: char) {
    IsIdentStart(c) || '0' <= c <= '9'
  }

  predicate Identifier(key: string) {
    key != "" && IsIdentStart(key[0]) && forall c | c in key :: IsIdentChar(c)
  }

  function Opening(scope: Scope): string {
    match scope case FromVariant => "${variant." case FromEdge => "${edge."
  }

  /** How a placeholder is written. */
  function Spelled(r: Ref): (s: string)
    ensures r.scope == FromVariant ==> s == "${variant." + r.key + "}"
    ensures r.scope == FromEdge ==> s == "${edge." + r.key + "}"
  {
    Opening(r.scope) + r.key + "}"
  }

  /** Length of the longest run of identifier characters at the front. */
  function IdentLength(s: string): (n: nat)
    ensures n <= |s| && (forall i | 0 <= i < n :: IsIdentChar(s[i])) && (n < |s| ==> !IsIdentChar(s[n]))
  {
    if s != "" && IsIdentChar(s[0]) then 1 + IdentLength(s[1..]) else 0
  }

  /** An identifier closed by a brace at the front. */
  function ReadKey(body: string): Option<string> {
    var n := IdentLength(body);
    if 0 < n < |body| && IsIdentStart(body[0]) && body[n] == '}' then Some(body[..n]) else None
  }

  function ReadRef(scope: Scope, s: string): Option<Ref> {
    if !(Opening(scope) <= s) then None
    else
      var key := ReadKey(s[|Opening(scope)|..]);
      if key.Some? then Some(Ref(scope, key.value)) else None
  }

  /** The placeholder at the front of `s`, if there is one. */
  function MatchPrefix(s: string): Option<Ref> {
    var v := ReadRef(FromVariant, s);
    if v.Some? then v else ReadRef(FromEdge, s)
  }

  /** `pattern.search(s)`. */
  predicate Search(s: string) {
    exists i | 0 <= i < |s| :: MatchPrefix(s[i..]).Some?
  }

  /** The search for `${edge.key}` alone. */
  predicate SearchEdge(s: string) {
    exists i | 0 <= i < |s| :: ReadRef(FromEdge, s[i..]).Some?
  }

  lemma ReadKeyIsIdentifier(body: string, key: string)
    ensures ReadKey(body) == Some(key) <==> Identifier(key) && key + "}" <= body
  {
    var n := IdentLength(body);
    if Identifier(key) && key + "}" <= body {
      assert body[|key|] == '}';
      forall i | 0 <= i < |key| ensures IsIdentChar(body[i]) {
        assert body[i] == (key + "}")[i] == key[i] && key[i] in key;
      }
      assert n == |key| && body[..n] == key;
    }
    if ReadKey(body) == Some(key) {
      assert body[..n + 1] == key + "}";
      forall c | c in key ensures IsIdentChar(c) { var i :| 0 <= i < |key| && key[i] == c; assert body[i] == c; }
    }
  }

  lemma ReadRefIsSpelling(scope: Scope, s: string, key: string)
    ensures ReadRef(scope, s) == Some(Ref(scope, key)) <==> Identifier(key) && Spelled(Ref(scope, key)) <= s
  {
    hide Opening, ReadKey, Identifier;
    var open := Opening(scope);
    var closed := key + "}";
    assert open + closed == Spelled(Ref(scope, key));
    if open <= s {
      assert s == open + s[|open|..];
      ReadKeyIsIdentifier(s[|open|..], key);
      assert open + closed <= s <==> closed <= s[|open|..] by {
        if open + closed <= s { assert s[|open|..][..|closed|] == s[..|open + closed|][|open|..] == closed; }
        if closed <= s[|open|..] { assert s[..|open| + |closed|] == open + s[|open|..][..|closed|]; }
      }
    } else {
      assert open <= open + closed;
    }
  }

  /** A match is a spelled placeholder, and there is at most one at any position. */
  lemma MatchIsSpelling(s: string, r: Ref)
    ensures MatchPrefix(s) == Some(r) <==> Identifier(r.key) && Spelled(r) <= s
  {
    ReadRefIsSpelling(r.scope, s, r.key);
    if Opening(FromEdge) <= s { assert s[2] == 'e'; }
    if Opening(FromVariant) <= s { assert s[2] == 'v'; }
    assert Opening(r.scope) <= Spelled(r);
  }

  lemma NoDollarInside(r: Ref, i: nat)
    requires Identifier(r.key) && 0 < i < |Spelled(r)|
    ensures Spelled(r)[i] != '$'
  {
    var open := Opening(r.scope);
    if |open| <= i < |open| + |r.key| { assert Spelled(r)[i] == r.key[i - |open|] && r.key[i - |open|] in r.key; }
  }

  /** What follows a text from its next dollar sign on does not change the match at its front. */
  lemma MatchIsLocal(a: string, t: string)
    requires a != "" && t != "" && t[0] == '$'
    ensures MatchPrefix(a + t) == MatchPrefix(a)
  {
    if m :| MatchPrefix(a + t) == Some(m) {
      MatchIsSpelling(a + t, m);
      if |Spelled(m)| > |a| {
        assert Spelled(m)[|a|] == (a + t)[|a|] == '$';
        NoDollarInside(m, |a|);
      } else {
        assert Spelled(m) == (a + t)[..|Spelled(m)|] == a[..|Spelled(m)|];
        MatchIsSpelling(a, m);
      }
    }
    if m :| MatchPrefix(a) == Some(m) {
      MatchIsSpelling(a, m);
      assert Spelled(m) <= a + t;
      MatchIsSpelling(a + t, m);
    }
  }

  // ---------------------------------------------------------------- rendering

  function Resolve(r: Ref, scopes: Scopes): Result<Value, Fault> {
    match r.scope
    case FromVariant => if r.key in scopes.variant then Ok(scopes.variant[r.key]) else Err(VariantUndefined(r.key))
    case FromEdge =>
      if scopes.edge.None? then Err(NoEdgeContext(r.key))
      else if r.key in scopes.edge.value then Ok(scopes.edge.value[r.key])
      else Err(EdgeUndefined(r.key))
  }

  /** The matches in a text, from left to right. */
  function Matches(s: string): seq<Ref> {
    if s == "" then [] else
      var m := MatchPrefix(s);
      (if m.Some? then [m.value] else []) + Matches(s[TokenLength(s)..])
  }

  /** Length of what scanning consumes next: a match, or one character. */
  function TokenLength(s: string): (n: nat)
    requires s != ""
    ensures 0 < n <= |s|
  {
    var m := MatchPrefix(s);
    if m.Some? && |Spelled(m.value)| <= |s| then |Spelled(m.value)| else 1
  }

  /** What substitution puts in its place. */
  function TokenText(s: string, scopes: Scopes, show: Value -> string): string
    requires s != ""
  {
    var m := MatchPrefix(s);
    if m.Some? && |Spelled(m.value)| <= |s| then
      var value := Resolve(m.value, scopes);
      if value.Ok? then show(value.value) else ""
    else [s[0]]
  }

  /** `pattern.sub`: every match replaced by the text of its value. */
  function Substituted(s: string, scopes: Scopes, show: Value -> string): string {
    if s == "" then ""
    else TokenText(s, scopes, show) + Substituted(s[TokenLength(s)..], scopes, show)
  }

  function FaultsOf(refs: seq<Ref>, scopes: Scopes): set<Fault> {
    set r | r in refs && Resolve(r, scopes).Err? :: Resolve(r, scopes).error
  }

  /** One string: untouched without a placeholder, the value itself when it is nothing but a placeholder
      (surrounding blanks aside), otherwise the substituted text. `show` is Python's `str`. */
  function RenderText(s: string, scopes: Scopes, show: Value -> string): Result<Value, set<Fault>> {
    if !Search(s) then Ok(Str(s))
    else
      var whole := MatchPrefix(Trim(s));
      if whole.Some? && Spelled(whole.value) == Trim(s) then
        var value := Resolve(whole.value, scopes);
        if value.Ok? then Ok(value.value) else Err({value.error})
      else
        var faults := FaultsOf(Matches(s), scopes);
        if faults == {} then Ok(Str(Substituted(s, scopes, show))) else Err(faults)
  }

  /** Rendering a document. A failure carries every fault found; the code raises the first it meets. */
  function Render(v: Value, scopes: Scopes, show: Value -> string): Result<Value, set<Fault>> {
    match v
    case Dict(m) =>
      var faults := set k, f | k in m && Render(m[k], scopes, show).Err? && f in Render(m[k], scopes, show).error :: f;
      if exists k | k in m :: Render(m[k], scopes, show).Err? then Err(faults)
      else Ok(Dict(map k | k in m :: Render(m[k], scopes, show).value))
    case List(items) =>
      var faults := set i, f | 0 <= i < |items| && Render(items[i], scopes, show).Err?
                                && f in Render(items[i], scopes, show).error :: f;
      if exists i | 0 <= i < |items| :: Render(items[i], scopes, show).Err? then Err(faults)
      else Ok(List(seq(|items|, i requires 0 <= i < |items| && Render(items[i], scopes, show).Ok?
                                  => Render(items[i], scopes, show).value)))
    case Str(s) => RenderText(s, scopes, show)
    case _ => Ok(v)
  }

  /** `_contains_edge_placeholder`. */
  predicate ContainsEdge(v: Value) {
    match v
    case Dict(m) => exists k | k in m :: ContainsEdge(m[k])
    case List(items) => exists i | 0 <= i < |items| :: ContainsEdge(items[i])
    case Str(s) => SearchEdge(s)
    case _ => false
  }

  // ---------------------------------------------------------------- what rendering means

  /** The placeholder is spelled out somewhere in the document. */
  ghost predicate Occurs(r: Ref, v: Value) {
    match v
    case Dict(m) => exists k | k in m :: Occurs(r, m[k])
    case List(items) => exists i | 0 <= i < |items| :: Occurs(r, items[i])
    case Str(s) => OccursIn(r, s)
    case _ => false
  }

  ghost predicate OccursIn(r: Ref, s: string) {
    Identifier(r.key) && exists i | 0 <= i <= |s| :: Spelled(r) <= s[i..]
  }

  lemma OccurrenceIsMatch(r: Ref, s: string)
    ensures OccursIn(r, s) <==> exists i | 0 <= i < |s| :: MatchPrefix(s[i..]) == Some(r)
  {
    if OccursIn(r, s) {
      var i :| 0 <= i <= |s| && Spelled(r) <= s[i..];
      MatchIsSpelling(s[i..], r);
      assert i < |s|;
    }
    if i :| 0 <= i < |s| && MatchPrefix(s[i..]) == Some(r) { MatchIsSpelling(s[i..], r); }
  }

  /** Occurrences before and after a stretch in which nothing but the first position can start one. */
  lemma OccursSplit(r: Ref, s: string, n: nat)
    requires 0 < n <= |s| && Identifier(r.key)
    requires forall i | 0 < i < n :: s[i] != '$' || !(Spelled(r) <= s[i..])
    ensures OccursIn(r, s) <==> Spelled(r) <= s || OccursIn(r, s[n..])
  {
    if OccursIn(r, s) {
      var i :| 0 <= i <= |s| && Spelled(r) <= s[i..];
      assert s[i] == '$';
      if i >= n { assert s[i..] == s[n..][i - n..]; } else { assert s[0..] == s; }
    }
    if Spelled(r) <= s { assert s == s[0..]; }
    if OccursIn(r, s[n..]) {
      var i :| 0 <= i <= |s[n..]| && Spelled(r) <= s[n..][i..];
      assert s[n..][i..] == s[n + i..];
    }
  }

  /** Scanning from left to right misses no occurrence. */
  lemma {:induction false} MatchesAreOccurrences(s: string, r: Ref)
    ensures r in Matches(s) <==> OccursIn(r, s)
    decreases |s|
  {
    if s != "" {
      var m := MatchPrefix(s);
      MatchIsSpelling(s, r);
      if m.Some? {
        MatchIsSpelling(s, m.value);
        var n := |Spelled(m.value)|;
        MatchesAreOccurrences(s[n..], r);
        forall i | 0 < i < n ensures s[i] != '$' {
          NoDollarInside(m.value, i);
          assert s[i] == Spelled(m.value)[i];
        }
        if Identifier(r.key) { OccursSplit(r, s, n); }
      } else {
        MatchesAreOccurrences(s[1..], r);
        if Identifier(r.key) { OccursSplit(r, s, 1); }
      }
    }
  }

  lemma FaultOfRef(refs: seq<Ref>, r: Ref, scopes: Scopes)
    ensures r in refs && Resolve(r, scopes).Err? ==> Resolve(r, scopes).error in FaultsOf(refs, scopes)
  {
  }

  lemma TrimKeepsOccurrences(s: string, r: Ref)
    ensures OccursIn(r, s) <==> OccursIn(r, Trim(s))
  {
    var from := TrimLeftSlice(s);
    var to := TrimRightSlice(s[from..]);
    if Identifier(r.key) {
      if from > 0 {
        assert Spelled(r)[0] == '$' && IsSpace(s[0]);
        OccursSplit(r, s, from);
      } else {
        assert s[0..] == s;
      }
      TailKeepsOccurrences(r, s[from..], to);
    }
  }

  lemma TailKeepsOccurrences(r: Ref, s: string, to: nat)
    requires to <= |s| && forall i | to <= i < |s| :: IsSpace(s[i])
    ensures OccursIn(r, s) <==> OccursIn(r, s[..to])
  {
    var word := Spelled(r);
    assert word[|word| - 1] == '}';
    hide Spelled;
    if OccursIn(r, s) {
      var i :| 0 <= i <= |s| && word <= s[i..];
      assert s[i + |word| - 1] == s[i..][|word| - 1] == '}';
      assert i + |word| <= to;
      PrefixAt(word, s, i, to);
    }
    if OccursIn(r, s[..to]) {
      var i :| 0 <= i <= to && word <= s[..to][i..];
      PrefixAt(word, s, i, to);
    }
  }

  /** A word that ends by `to` stands at the same place with and without the rest of the text. */
  lemma PrefixAt(word: string, s: string, i: nat, to: nat)
    requires i + |word| <= to <= |s|
    ensures word <= s[i..] <==> word <= s[..to][i..]
  {
    assert s[i..][..|word|] == s[..to][i..][..|word|];
  }

  lemma {:induction false} TrimLeftSlice(s: string) returns (from: nat)
    ensures from <= |s| && TrimLeft(s) == s[from..] && forall i | 0 <= i < from :: IsSpace(s[i])
  {
    from := 0;
    if s != "" && IsSpace(s[0]) {
      var rest := TrimLeftSlice(s[1..]);
      from := rest + 1;
      forall i | 0 <= i < from ensures IsSpace(s[i]) { if i > 0 { assert s[i] == s[1..][i - 1]; } }
    }
  }

  lemma {:induction false} TrimRightSlice(s: string) returns (to: nat)
    ensures to <= |s| && TrimRight(s) == s[..to] && forall i | to <= i < |s| :: IsSpace(s[i])
  {
    to := |s|;
    if s != "" && IsSpace(s[|s| - 1]) {
      var short := s[..|s| - 1];
      to := TrimRightSlice(short);
      forall i | to <= i < |s| ensures IsSpace(s[i]) { if i < |s| - 1 { assert s[i] == short[i]; } }
    }
  }

  lemma OccursInSpelled(r: Ref, whole: Ref)
    requires Identifier(whole.key)
    ensures OccursIn(r, Spelled(whole)) <==> r == whole
  {
    var s := Spelled(whole);
    assert s[0..] == s;
    MatchIsSpelling(s, whole);
    if OccursIn(r, s) {
      var i :| 0 <= i <= |s| && Spelled(r) <= s[i..];
      if i > 0 { NoDollarInside(whole, i); }
      MatchIsSpelling(s, r);
    }
  }

  lemma TextRendersExactly(s: string, scopes: Scopes, show: Value -> string)
    ensures RenderText(s, scopes, show).Ok? <==> forall r | OccursIn(r, s) :: Resolve(r, scopes).Ok?
    ensures RenderText(s, scopes, show).Err? ==> forall f ::
              f in RenderText(s, scopes, show).error <==> exists r :: OccursIn(r, s) && Resolve(r, scopes) == Err(f)
  {
    forall r ensures r in Matches(s) <==> OccursIn(r, s) { MatchesAreOccurrences(s, r); }
    forall r ensures OccursIn(r, s) <==> OccursIn(r, Trim(s)) { TrimKeepsOccurrences(s, r); }
    if !Search(s) {
      forall r ensures !OccursIn(r, s) { OccurrenceIsMatch(r, s); }
    } else {
      var whole := MatchPrefix(Trim(s));
      if whole.Some? && Spelled(whole.value) == Trim(s) {
        MatchIsSpelling(Trim(s), whole.value);
        forall r ensures OccursIn(r, s) <==> r == whole.value { OccursInSpelled(r, whole.value); }
      } else if RenderText(s, scopes, show).Ok? {
        forall r | OccursIn(r, s) ensures Resolve(r, scopes).Ok? { FaultOfRef(Matches(s), r, scopes); }
      }
    }
  }

  /** Rendering fails exactly when a placeholder of the document is undefined, and reports exactly those. */
  ghost predicate ReportsFaults(v: Value, scopes: Scopes, show: Value -> string) {
    && (Render(v, scopes, show).Ok? <==> forall r | Occurs(r, v) :: Resolve(r, scopes).Ok?)
    && (Render(v, scopes, show).Err? ==> forall f ::
          f in Render(v, scopes, show).error <==> exists r :: Occurs(r, v) && Resolve(r, scopes) == Err(f))
  }

  lemma DictReportsFaults(m: map<string, Value>, scopes: Scopes, show: Value -> string)
    requires forall k | k in m :: ReportsFaults(m[k], scopes, show)
    ensures ReportsFaults(Dict(m), scopes, show)
  {
    hide Resolve, RenderText, OccursIn;
    var v := Dict(m);
    if Render(v, scopes, show).Err? {
      forall f ensures f in Render(v, scopes, show).error <==> exists r :: Occurs(r, v) && Resolve(r, scopes) == Err(f) {
        if r :| Occurs(r, v) && Resolve(r, scopes) == Err(f) {
          var k :| k in m && Occurs(r, m[k]);
          assert f in Render(m[k], scopes, show).error;
        }
        if f in Render(v, scopes, show).error {
          var k :| k in m && Render(m[k], scopes, show).Err? && f in Render(m[k], scopes, show).error;
          var r :| Occurs(r, m[k]) && Resolve(r, scopes) == Err(f);
          assert Occurs(r, v);
        }
      }
    }
  }

  lemma ListReportsFaults(items: seq<Value>, scopes: Scopes, show: Value -> string)
    requires forall i | 0 <= i < |items| :: ReportsFaults(items[i], scopes, show)
    ensures ReportsFaults(List(items), scopes, show)
  {
    hide Resolve, RenderText, OccursIn;
    var v := List(items);
    if Render(v, scopes, show).Err? {
      forall f ensures f in Render(v, scopes, show).error <==> exists r :: Occurs(r, v) && Resolve(r, scopes) == Err(f) {
        if r :| Occurs(r, v) && Resolve(r, scopes) == Err(f) {
          var i :| 0 <= i < |items| && Occurs(r, items[i]);
          assert f in Render(items[i], scopes, show).error;
        }
      }
    }
  }

  lemma {:induction false} RenderResolvesExactly(v: Value, scopes: Scopes, show: Value -> string)
    ensures Render(v, scopes, show).Ok? <==> forall r | Occurs(r, v) :: Resolve(r, scopes).Ok?
    ensures Render(v, scopes, show).Err? ==> forall f ::
              f in Render(v, scopes, show).error <==> exists r :: Occurs(r, v) && Resolve(r, scopes) == Err(f)
    decreases v
  {
    hide RenderText, OccursIn, Resolve, Spelled;
    match v
    case Dict(m) =>
      forall k | k in m { RenderResolvesExactly(m[k], scopes, show); }
      DictReportsFaults(m, scopes, show);
    case List(items) =>
      forall i | 0 <= i < |items| { RenderResolvesExactly(items[i], scopes, show); }
      ListReportsFaults(items, scopes, show);
    case Str(s) =>
      TextRendersExactly(s, scopes, show);
    case _ =>
  }

  /** Rendering succeeds exactly when the variant has every key that a variant placeholder of the document names, and
      there is an edge that has every key that an edge placeholder names; a failure reports precisely the others. */
  lemma RenderSucceedsExactly(v: Value, scopes: Scopes, show: Value -> string)
    ensures Render(v, scopes, show).Ok? <==>
      && (forall k | Occurs(Ref(FromVariant, k), v) :: k in scopes.variant)
      && (forall k | Occurs(Ref(FromEdge, k), v) :: scopes.edge.Some? && k in scopes.edge.value)
    ensures Render(v, scopes, show).Err? ==> forall k ::
      var faults := Render(v, scopes, show).error;
      && (VariantUndefined(k) in faults <==> Occurs(Ref(FromVariant, k), v) && k !in scopes.variant)
      && (NoEdgeContext(k) in faults <==> Occurs(Ref(FromEdge, k), v) && scopes.edge.None?)
      && (EdgeUndefined(k) in faults <==>
            Occurs(Ref(FromEdge, k), v) && scopes.edge.Some? && k !in scopes.edge.value)
  {
    hide Render, Occurs;
    RenderResolvesExactly(v, scopes, show);
    forall r: Ref ensures r == Ref(FromVariant, r.key) || r == Ref(FromEdge, r.key) {
      match r.scope case FromVariant => case FromEdge =>
    }
    if Render(v, scopes, show).Err? {
      var faults := Render(v, scopes, show).error;
      forall k ensures VariantUndefined(k) in faults <==> Occurs(Ref(FromVariant, k), v) && k !in scopes.variant
        ensures NoEdgeContext(k) in faults <==> Occurs(Ref(FromEdge, k), v) && scopes.edge.None?
        ensures EdgeUndefined(k) in faults <==>
          Occurs(Ref(FromEdge, k), v) && scopes.edge.Some? && k !in scopes.edge.value
      {
        assert Resolve(Ref(FromVariant, k), scopes).Ok? || Resolve(Ref(FromVariant, k), scopes) == Err(VariantUndefined(k));
        assert Resolve(Ref(FromEdge, k), scopes).Ok? || Resolve(Ref(FromEdge, k), scopes) == Err(NoEdgeContext(k))
          || Resolve(Ref(FromEdge, k), scopes) == Err(EdgeUndefined(k));
      }
    }
  }

  /** The static edge check sees exactly the edge placeholders that rendering would resolve. */
  lemma {:induction false} EdgeCheckExactly(v: Value)
    ensures ContainsEdge(v) <==> exists r: Ref :: r.scope == FromEdge && Occurs(r, v)
    decreases v
  {
    match v
    case Dict(m) =>
      forall k | k in m { EdgeCheckExactly(m[k]); }
    case List(items) =>
      forall i | 0 <= i < |items| { EdgeCheckExactly(items[i]); }
    case Str(s) =>
      if i :| 0 <= i < |s| && ReadRef(FromEdge, s[i..]).Some? {
        var r := ReadRef(FromEdge, s[i..]).value;
        ReadRefIsSpelling(FromEdge, s[i..], r.key);
        assert OccursIn(r, s) && Occurs(r, v);
      }
      if r: Ref :| r.scope == FromEdge && Occurs(r, v) {
        var i :| 0 <= i <= |s| && Spelled(r) <= s[i..];
        assert i < |s|;
        ReadRefIsSpelling(FromEdge, s[i..], r.key);
      }
    case _ =>
  }

  /** A document that passed the edge check never fails for want of an edge. */
  lemma CheckedDocumentHasEdgeContext(v: Value, scopes: Scopes, show: Value -> string)
    requires ContainsEdge(v) ==> scopes.edge.Some?
    ensures Render(v, scopes, show).Err? ==> forall f | f in Render(v, scopes, show).error :: !f.NoEdgeContext?
  {
    RenderResolvesExactly(v, scopes, show);
    EdgeCheckExactly(v);
  }

  /** A rendered document has its template's shape: the same keys, the same lengths and the same
      non-string leaves; strings without a placeholder stay, a lone placeholder gives the value its scope has
      under its key, whatever its type, and any other string is substituted. */
  ghost predicate SameShape(v: Value, r: Value, scopes: Scopes, show: Value -> string) {
    match v
    case Dict(m) => r.Dict? && r.m.Keys == m.Keys && forall k | k in m :: SameShape(m[k], r.m[k], scopes, show)
    case List(items) =>
      r.List? && |r.items| == |items| && forall i | 0 <= i < |items| :: SameShape(items[i], r.items[i], scopes, show)
    case Str(s) =>
      && ((forall x :: !OccursIn(x, s)) ==> r == v)
      && (forall k | Identifier(k) && Trim(s) == "${variant." + k + "}" ::
            k in scopes.variant && r == scopes.variant[k])
      && (forall k | Identifier(k) && Trim(s) == "${edge." + k + "}" ::
            scopes.edge.Some? && k in scopes.edge.value && r == scopes.edge.value[k])
      && ((forall x: Ref | Identifier(x.key) :: Trim(s) != Spelled(x)) ==> r == Str(Substituted(s, scopes, show)))
    case _ => r == v
  }

  lemma {:induction false} RenderKeepsShape(v: Value, scopes: Scopes, show: Value -> string)
    requires Render(v, scopes, show).Ok?
    ensures SameShape(v, Render(v, scopes, show).value, scopes, show)
    decreases v
  {
    match v
    case Dict(m) =>
      forall k | k in m ensures SameShape(m[k], Render(m[k], scopes, show).value, scopes, show) {
        RenderKeepsShape(m[k], scopes, show);
      }
    case List(items) =>
      forall i | 0 <= i < |items| ensures SameShape(items[i], Render(items[i], scopes, show).value, scopes, show) {
        RenderKeepsShape(items[i], scopes, show);
      }
    case Str(s) =>
      TextKeepsShape(s, scopes, show);
    case _ =>
  }

  lemma TextKeepsShape(s: string, scopes: Scopes, show: Value -> string)
    requires RenderText(s, scopes, show).Ok?
    ensures SameShape(Str(s), RenderText(s, scopes, show).value, scopes, show)
  {
    hide Substituted, RenderText, OccursIn, Resolve, Search, Identifier;
    LonePlaceholder(s, scopes, show);
    PlainTextStays(s, scopes, show);
    forall k | Identifier(k) && Trim(s) == "${variant." + k + "}"
      ensures k in scopes.variant && RenderText(s, scopes, show).value == scopes.variant[k]
    {
      ResolveVariant(k, scopes);
      assert Spelled(Ref(FromVariant, k)) == Trim(s);
    }
    forall k | Identifier(k) && Trim(s) == "${edge." + k + "}"
      ensures scopes.edge.Some? && k in scopes.edge.value && RenderText(s, scopes, show).value == scopes.edge.value[k]
    {
      ResolveEdge(k, scopes);
      assert Spelled(Ref(FromEdge, k)) == Trim(s);
    }
  }

  lemma ResolveVariant(k: string, scopes: Scopes)
    ensures Resolve(Ref(FromVariant, k), scopes).Ok? ==>
      k in scopes.variant && Resolve(Ref(FromVariant, k), scopes).value == scopes.variant[k]
  {
  }

  lemma ResolveEdge(k: string, scopes: Scopes)
    ensures Resolve(Ref(FromEdge, k), scopes).Ok? ==>
      scopes.edge.Some? && k in scopes.edge.value && Resolve(Ref(FromEdge, k), scopes).value == scopes.edge.value[k]
  {
  }

  /** A text has a placeholder exactly when the search finds one; without any it stays and is its own substitution. */
  lemma PlainTextStays(s: string, scopes: Scopes, show: Value -> string)
    ensures Search(s) <==> exists r :: OccursIn(r, s)
    ensures !Search(s) ==> RenderText(s, scopes, show) == Ok(Str(s)) && Substituted(s, scopes, show) == s
  {
    hide OccursIn, Substituted;
    if i :| 0 <= i < |s| && MatchPrefix(s[i..]).Some? { OccurrenceIsMatch(MatchPrefix(s[i..]).value, s); }
    forall r | OccursIn(r, s) ensures Search(s) { OccurrenceIsMatch(r, s); }
    if !Search(s) { SubstitutionOfPlainText(s, scopes, show); }
  }

  lemma LonePlaceholder(s: string, scopes: Scopes, show: Value -> string)
    requires RenderText(s, scopes, show).Ok?
    ensures forall x: Ref | Identifier(x.key) && Trim(s) == Spelled(x) ::
      Resolve(x, scopes) == Ok(RenderText(s, scopes, show).value)
    ensures (forall x: Ref | Identifier(x.key) :: Trim(s) != Spelled(x)) && Search(s) ==>
      RenderText(s, scopes, show).value == Str(Substituted(s, scopes, show))
  {
    hide Opening, ReadRef, Identifier, Substituted, Matches, FaultsOf, Resolve;
    var t := Trim(s);
    if x: Ref :| Identifier(x.key) && t == Spelled(x) {
      MatchIsSpelling(t, x);
      OccursInSpelled(x, x);
      TrimKeepsOccurrences(s, x);
      OccurrenceIsMatch(x, s);
      forall y: Ref | Identifier(y.key) && t == Spelled(y) ensures y == x { MatchIsSpelling(t, y); }
    } else if m :| MatchPrefix(t) == Some(m) {
      MatchIsSpelling(t, m);
    }
  }

  /** A text without placeholders is its own substitution. */
  lemma {:induction false} SubstitutionOfPlainText(s: string, scopes: Scopes, show: Value -> string)
    requires forall r :: !OccursIn(r, s)
    ensures Substituted(s, scopes, show) == s
  {
    if s != "" {
      assert s[0..] == s;
      if m :| MatchPrefix(s) == Some(m) { MatchIsSpelling(s, m); assert OccursIn(m, s); }
      forall r ensures !OccursIn(r, s[1..]) { if OccursIn(r, s[1..]) { OccursAfter(r, s); } }
      SubstitutionOfPlainText(s[1..], scopes, show);
    }
  }

  lemma OccursAfter(r: Ref, s: string)
    requires s != "" && OccursIn(r, s[1..])
    ensures OccursIn(r, s)
  {
    var i :| 0 <= i <= |s[1..]| && Spelled(r) <= s[1..][i..];
    assert s[1..][i..] == s[i + 1..];
  }

  lemma TokenIsLocal(a: string, t: string, scopes: Scopes, show: Value -> string)
    requires a != "" && t != "" && t[0] == '$'
    ensures TokenLength(a + t) == TokenLength(a)
    ensures TokenText(a + t, scopes, show) == TokenText(a, scopes, show)
  {
    MatchIsLocal(a, t);
    if m :| MatchPrefix(a) == Some(m) { MatchIsSpelling(a, m); }
  }

  lemma TokenOfSpelled(r: Ref, b: string, scopes: Scopes, show: Value -> string)
    requires Identifier(r.key) && Resolve(r, scopes).Ok?
    ensures TokenLength(Spelled(r) + b) == |Spelled(r)|
    ensures TokenText(Spelled(r) + b, scopes, show) == show(Resolve(r, scopes).value)
  {
    MatchIsSpelling(Spelled(r) + b, r);
  }

  lemma {:induction false} SubstitutionAppends(a: string, t: string, scopes: Scopes, show: Value -> string)
    requires t != "" && t[0] == '$'
    ensures Substituted(a + t, scopes, show) == Substituted(a, scopes, show) + Substituted(t, scopes, show)
    decreases |a|
  {
    hide TokenText, TokenLength;
    if a == "" {
      assert a + t == t;
    } else {
      TokenIsLocal(a, t, scopes, show);
      var n := TokenLength(a);
      assert (a + t)[n..] == a[n..] + t;
      SubstitutionAppends(a[n..], t, scopes, show);
    }
  }

  lemma SubstitutionResolves(a: string, r: Ref, b: string, scopes: Scopes, show: Value -> string)
    requires Identifier(r.key) && Resolve(r, scopes).Ok?
    ensures Substituted(a + Spelled(r) + b, scopes, show)
            == Substituted(a, scopes, show) + show(Resolve(r, scopes).value) + Substituted(b, scopes, show)
  {
    var tail := Spelled(r) + b;
    TokenOfSpelled(r, b, scopes, show);
    assert tail[|Spelled(r)|..] == b;
    assert a + Spelled(r) + b == a + tail;
    SubstitutionAppends(a, tail, scopes, show);
  }

  /** Whatever surrounds a placeholder, substitution replaces it by the text of the value that its scope has under its
      key, and treats the two sides on their own. */
  lemma SubstitutionSplits(a: string, k: string, b: string, scopes: Scopes, show: Value -> string)
    requires Identifier(k)
    ensures k in scopes.variant ==>
      Substituted(a + "${variant." + k + "}" + b, scopes, show)
      == Substituted(a, scopes, show) + show(scopes.variant[k]) + Substituted(b, scopes, show)
    ensures scopes.edge.Some? && k in scopes.edge.value ==>
      Substituted(a + "${edge." + k + "}" + b, scopes, show)
      == Substituted(a, scopes, show) + show(scopes.edge.value[k]) + Substituted(b, scopes, show)
  {
    hide Substituted;
    if k in scopes.variant {
      SubstitutionResolves(a, Ref(FromVariant, k), b, scopes, show);
      assert a + Spelled(Ref(FromVariant, k)) + b == a + "${variant." + k + "}" + b;
    }
    if scopes.edge.Some? && k in scopes.edge.value {
      SubstitutionResolves(a, Ref(FromEdge, k), b, scopes, show);
      assert a + Spelled(Ref(FromEdge, k)) + b == a + "${edge." + k + "}" + b;
    }
  }
}
