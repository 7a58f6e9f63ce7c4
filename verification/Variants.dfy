/** The parameter grid of an experiment: the product of its axes, filtered. */
module Variants {
  import opened Values
  import opened Ordering
  import opened Sequences

  type Axes = map<string, seq<Value>>
  type Assignment = map<string, Value>

  /** Every row extended by one binding. */
  function Bound(name: string, value: Value, rows: seq<Assignment>): seq<Assignment> {
    seq(|rows|, i requires 0 <= i < |rows| => rows[i][name := value])
  }

  function Blocks(name: string, values: seq<Value>, rows: seq<Assignment>): seq<Assignment> {
    if values == [] then [] else Bound(name, values[0], rows) + Blocks(name, values[1..], rows)
  }

  /** `itertools.product` over the axes in the given order: the first axis varies slowest. */
  function Product(names: seq<string>, axes: Axes): seq<Assignment>
    requires forall n | n in names :: n in axes
  {
    if names == [] then [map[]] else Blocks(names[0], axes[names[0]], Product(names[1..], axes))
  }

  /** A partial filter: the variant agrees with every entry, a missing key counting as null. */
  predicate MatchesPartial(variant: Assignment, matcher: map<string, Value>) {
    forall k | k in matcher :: Get(variant, k) == matcher[k]
  }

  predicate MatchesAny(variant: Assignment, filters: seq<Value>) {
    exists f | f in filters :: f.Dict? && MatchesPartial(variant, f.m)
  }

  /** An included list, if given, must match and an excluded list must not. */
  predicate Kept(variant: Assignment, included: seq<Value>, excluded: seq<Value>) {
    (included != [] ==> MatchesAny(variant, included)) && !MatchesAny(variant, excluded)
  }

  /** `_expand_variants`. */
  function Expanded(axes: Axes, included: seq<Value>, excluded: seq<Value>): seq<Assignment> {
    Filter(Product(SortedNames(axes.Keys), axes), v => Kept(v, included, excluded))
  }

  // ---------------------------------------------------------------- the grid, point by point

  /** One index per axis. */
  ghost predicate Choice(names: seq<string>, axes: Axes, at: seq<nat>)
    requires forall n | n in names :: n in axes
  {
    |at| == |names| && forall j | 0 <= j < |names| :: at[j] < |axes[names[j]]|
  }

  /** The assignment makes these choices, and binds nothing else. */
  ghost predicate Picks(v: Assignment, names: seq<string>, axes: Axes, at: seq<nat>)
    requires forall n | n in names :: n in axes
    requires Choice(names, axes, at)
  {
    v.Keys == (set n | n in names) && forall j | 0 <= j < |names| :: v[names[j]] == axes[names[j]][at[j]]
  }

  ghost function Size(names: seq<string>, axes: Axes): nat
    requires forall n | n in names :: n in axes
  {
    if names == [] then 1 else |axes[names[0]]| * Size(names[1..], axes)
  }

  /** The mixed-radix number of a choice. */
  ghost function Position(names: seq<string>, axes: Axes, at: seq<nat>): nat
    requires forall n | n in names :: n in axes
    requires Choice(names, axes, at)
  {
    if names == [] then 0 else at[0] * Size(names[1..], axes) + Position(names[1..], axes, at[1..])
  }

  /** Row r of block v among m blocks of n rows. */
  lemma RowBound(v: nat, r: nat, m: nat, n: nat)
    requires v < m && r < n
    ensures v * n + r < m * n
    ensures v > 0 ==> v * n + r == n + ((v - 1) * n + r)
  {
    NextBlock(v, m, n);
    if v > 0 { assert (v - 1) * n + n == v * n; }
  }

  lemma {:induction false} BlocksAt(name: string, values: seq<Value>, rows: seq<Assignment>, v: nat, r: nat)
    requires v < |values| && r < |rows|
    ensures |Blocks(name, values, rows)| == |values| * |rows|
    ensures v * |rows| + r < |values| * |rows|
    ensures Blocks(name, values, rows)[v * |rows| + r] == rows[r][name := values[v]]
  {
    BlocksSize(name, values, rows);
    RowBound(v, r, |values|, |rows|);
    var first, rest := Bound(name, values[0], rows), Blocks(name, values[1..], rows);
    assert Blocks(name, values, rows) == first + rest && |first| == |rows|;
    if v > 0 {
      BlocksAt(name, values[1..], rows, v - 1, r);
      assert (first + rest)[|rows| + ((v - 1) * |rows| + r)] == rest[(v - 1) * |rows| + r];
    }
  }

  lemma {:induction false} BlocksSize(name: string, values: seq<Value>, rows: seq<Assignment>)
    ensures |Blocks(name, values, rows)| == |values| * |rows|
  {
    if values != [] { BlocksSize(name, values[1..], rows); }
  }

  lemma {:induction false} ProductSize(names: seq<string>, axes: Axes)
    requires forall n | n in names :: n in axes
    ensures |Product(names, axes)| == Size(names, axes)
  {
    if names != [] {
      ProductSize(names[1..], axes);
      BlocksSize(names[0], axes[names[0]], Product(names[1..], axes));
    }
  }

  /** Every choice stands in the product, at its own number. */
  lemma {:induction false} ProductAt(names: seq<string>, axes: Axes, at: seq<nat>)
    requires Distinct(names) && (forall n | n in names :: n in axes) && Choice(names, axes, at)
    ensures Position(names, axes, at) < |Product(names, axes)|
    ensures Picks(Product(names, axes)[Position(names, axes, at)], names, axes, at)
    decreases |names|
  {
    if names != [] {
      ProductAt(names[1..], axes, at[1..]);
      ProductSize(names[1..], axes);
      var rest := Product(names[1..], axes)[Position(names[1..], axes, at[1..])];
      BlocksAt(names[0], axes[names[0]], Product(names[1..], axes), at[0], Position(names[1..], axes, at[1..]));
      PicksStep(rest, names, axes, at);
    }
  }

  lemma PicksStep(rest: Assignment, names: seq<string>, axes: Axes, at: seq<nat>)
    requires names != [] && Distinct(names) && (forall n | n in names :: n in axes) && Choice(names, axes, at)
    requires Picks(rest, names[1..], axes, at[1..])
    ensures Picks(rest[names[0] := axes[names[0]][at[0]]], names, axes, at)
  {
    assert names == [names[0]] + names[1..];
    forall j | 0 < j < |names| ensures names[j] in rest && rest[names[j]] == axes[names[j]][at[j]] {
      assert names[1..][j - 1] == names[j] && at[1..][j - 1] == at[j];
    }
  }

  /** And nothing else does. */
  lemma {:induction false} ProductOnly(names: seq<string>, axes: Axes, i: nat) returns (at: seq<nat>)
    requires Distinct(names) && (forall n | n in names :: n in axes) && i < |Product(names, axes)|
    ensures Choice(names, axes, at) && Position(names, axes, at) == i
    decreases |names|
  {
    if names == [] {
      at := [];
    } else {
      ProductSize(names, axes);
      var n := Size(names[1..], axes);
      assert n > 0 && i / n < |axes[names[0]]| by { QuotientBelow(i, n, |axes[names[0]]|); }
      ProductSize(names[1..], axes);
      var rest := ProductOnly(names[1..], axes, i % n);
      at := [i / n] + rest;
      assert at[1..] == rest;
    }
  }

  lemma QuotientBelow(i: nat, n: nat, m: nat)
    requires i < m * n
    ensures n > 0 && i / n < m
  {
  }

  /** Axes without empty value lists have a non-empty product. */
  lemma {:induction false} ProductNonEmpty(names: seq<string>, axes: Axes)
    requires forall n | n in names :: n in axes && axes[n] != []
    ensures Product(names, axes) != []
  {
    if names != [] {
      ProductNonEmpty(names[1..], axes);
      assert names[0] in names;
      BlocksAt(names[0], axes[names[0]], Product(names[1..], axes), 0, 0);
    }
  }

  lemma AscendingIsDistinct(names: seq<string>)
    requires Ascending(names, StrLess)
    ensures Distinct(names)
  {
    forall i, j | 0 <= i < j < |names| ensures names[i] != names[j] { StrLessAsymmetric(names[i], names[j]); }
  }

  /** A kept choice stands in the expansion after exactly the kept points numbered below it. */
  lemma ExpandedHasChoice(axes: Axes, included: seq<Value>, excluded: seq<Value>, at: seq<nat>)
    returns (v: Assignment, i: nat)
    requires Choice(SortedNames(axes.Keys), axes, at)
    ensures Picks(v, SortedNames(axes.Keys), axes, at)
    ensures i == Position(SortedNames(axes.Keys), axes, at) < |Product(SortedNames(axes.Keys), axes)|
    ensures Kept(v, included, excluded) ==>
      var before := |Filter(Product(SortedNames(axes.Keys), axes)[..i], w => Kept(w, included, excluded))|;
      before < |Expanded(axes, included, excluded)| && Expanded(axes, included, excluded)[before] == v
  {
    hide Kept, StrLess;
    var names := SortedNames(axes.Keys);
    var grid := Product(names, axes);
    AscendingIsDistinct(names);
    ProductAt(names, axes, at);
    i := Position(names, axes, at);
    v := grid[i];
    if Kept(v, included, excluded) { FilterKeepsOrder(grid, i, w => Kept(w, included, excluded)); }
  }

  /** Every row of the expansion is a kept choice. */
  lemma ExpandedOnlyChoices(axes: Axes, included: seq<Value>, excluded: seq<Value>, i: nat) returns (at: seq<nat>)
    requires i < |Expanded(axes, included, excluded)|
    ensures Choice(SortedNames(axes.Keys), axes, at)
    ensures Picks(Expanded(axes, included, excluded)[i], SortedNames(axes.Keys), axes, at)
    ensures Kept(Expanded(axes, included, excluded)[i], included, excluded)
  {
    hide Kept, StrLess;
    var names := SortedNames(axes.Keys);
    var v := Expanded(axes, included, excluded)[i];
    assert v in Expanded(axes, included, excluded);
    var j :| 0 <= j < |Product(names, axes)| && Product(names, axes)[j] == v;
    AscendingIsDistinct(names);
    at := ProductOnly(names, axes, j);
    ProductAt(names, axes, at);
  }

  /** Numbers follow the lexicographic order of choices: the first axis that differs decides. */
  lemma {:induction false} PositionIsLexicographic(names: seq<string>, axes: Axes, a: seq<nat>, b: seq<nat>, j: nat)
    requires (forall n | n in names :: n in axes) && Choice(names, axes, a) && Choice(names, axes, b)
    requires j < |names| && a[..j] == b[..j] && a[j] < b[j]
    ensures Position(names, axes, a) < Position(names, axes, b)
    decreases j
  {
    var n := Size(names[1..], axes);
    if j > 0 {
      assert a[0] == a[..j][0] == b[..j][0] == b[0];
      assert a[1..][..j - 1] == a[..j][1..] && b[1..][..j - 1] == b[..j][1..];
      PositionIsLexicographic(names[1..], axes, a[1..], b[1..], j - 1);
    } else {
      PositionBelowSize(names[1..], axes, a[1..]);
      NextBlock(a[0], b[0], n);
    }
  }

  lemma NextBlock(a: nat, b: nat, n: nat)
    requires a < b
    ensures a * n + n <= b * n
  {
    assert a * n + n == (a + 1) * n;
  }

  lemma {:induction false} PositionBelowSize(names: seq<string>, axes: Axes, at: seq<nat>)
    requires (forall n | n in names :: n in axes) && Choice(names, axes, at)
    ensures Position(names, axes, at) < Size(names, axes)
  {
    if names != [] {
      PositionBelowSize(names[1..], axes, at[1..]);
      RowBound(at[0], Position(names[1..], axes, at[1..]), |axes[names[0]]|, Size(names[1..], axes));
    }
  }
}
