/** The three shapes of list-building loop that recur in the source: keep what passes a test, drop repeats,
    and collect results until the first error. */
module Sequences {
  import opened Values

  // ---------------------------------------------------------------- keeping

  /** `[x for x in s if p(x)]`. */
  function Filter<T(!new)>(s: seq<T>, p: T -> bool): (r: seq<T>)
    ensures forall x :: x in r <==> x in s && p(x)
  {
    if s == [] then [] else (if p(s[0]) then [s[0]] else []) + Filter(s[1..], p)
  }

  lemma {:induction false} FilterAppend<T(!new)>(a: seq<T>, b: seq<T>, p: T -> bool)
    ensures Filter(a + b, p) == Filter(a, p) + Filter(b, p)
  {
    if a == [] {
      assert a + b == b;
    } else {
      assert (a + b)[1..] == a[1..] + b;
      FilterAppend(a[1..], b, p);
    }
  }

  /** A kept element stands after exactly the kept elements that stood before it. */
  lemma FilterKeepsOrder<T(!new)>(s: seq<T>, i: nat, p: T -> bool)
    requires i < |s| && p(s[i])
    ensures |Filter(s[..i], p)| < |Filter(s, p)| && Filter(s, p)[|Filter(s[..i], p)|] == s[i]
  {
    assert s == s[..i] + ([s[i]] + s[i + 1..]);
    FilterAppend(s[..i], [s[i]] + s[i + 1..], p);
    assert Filter([s[i]] + s[i + 1..], p)[0] == s[i];
  }

  // ---------------------------------------------------------------- dropping repeats

  predicate Distinct<T(==)>(s: seq<T>) {
    forall i, j | 0 <= i < j < |s| :: s[i] != s[j]
  }

  /** `if x not in out: out.append(x)`, over all of `s`. */
  function Dedup<T(==,!new)>(s: seq<T>): (r: seq<T>)
    ensures Distinct(r)
    ensures forall x :: x in r <==> x in s
  {
    if s == [] then [] else
      var front := Dedup(s[..|s| - 1]);
      assert s == s[..|s| - 1] + [s[|s| - 1]];
      Added(front, s[|s| - 1])
  }

  function Added<T(==)>(s: seq<T>, x: T): seq<T> {
    if x in s then s else s + [x]
  }

  lemma DedupStep<T(!new)>(s: seq<T>, i: nat)
    requires i < |s|
    ensures Dedup(s[..i + 1]) == Added(Dedup(s[..i]), s[i])
  {
    assert s[..i + 1][..i] == s[..i];
  }

  // ---------------------------------------------------------------- collecting

  /** The results of `f` joined in order, or the first error. */
  function Collect<T, U, E>(items: seq<T>, f: T -> Result<seq<U>, E>): Result<seq<U>, E> {
    if items == [] then Ok([])
    else
      var first := f(items[0]);
      if first.Err? then first else After(first.value, Collect(items[1..], f))
  }

  function After<U, E>(done: seq<U>, rest: Result<seq<U>, E>): Result<seq<U>, E> {
    if rest.Ok? then Ok(done + rest.value) else rest
  }

  /** One turn of a collecting loop. */
  lemma CollectStep<T, U, E>(items: seq<T>, f: T -> Result<seq<U>, E>, i: nat, done: seq<U>)
    requires i < |items|
    ensures After(done, Collect(items[i..], f)) ==
            if f(items[i]).Err? then f(items[i]) else After(done + f(items[i]).value, Collect(items[i + 1..], f))
  {
    assert items[i..][1..] == items[i + 1..];
    var rest := Collect(items[i + 1..], f);
    if f(items[i]).Ok? && rest.Ok? { assert done + (f(items[i]).value + rest.value) == done + f(items[i]).value + rest.value; }
  }

  lemma CollectStart<T, U, E>(items: seq<T>, f: T -> Result<seq<U>, E>)
    ensures After([], Collect(items[0..], f)) == Collect(items, f)
  {
    assert items[0..] == items;
    var all := Collect(items, f);
    if all.Ok? { assert [] + all.value == all.value; }
  }

  lemma CollectEnd<T, U, E>(items: seq<T>, f: T -> Result<seq<U>, E>, done: seq<U>)
    ensures After(done, Collect(items[|items|..], f)) == Ok(done)
  {
    assert done + [] == done;
  }

  /** An error of the whole is the error of one item. */
  lemma {:induction false} CollectError<T, U, E>(items: seq<T>, f: T -> Result<seq<U>, E>)
    ensures Collect(items, f).Ok? <==> forall x | x in items :: f(x).Ok?
    ensures Collect(items, f).Err? ==> exists x | x in items :: f(x) == Err(Collect(items, f).error)
  {
    if items != [] { CollectError(items[1..], f); }
  }

  /** A result is collected exactly when some item gives it. */
  lemma {:induction false} CollectMember<T, U(!new), E>(items: seq<T>, f: T -> Result<seq<U>, E>)
    requires Collect(items, f).Ok?
    ensures forall x | x in items :: f(x).Ok?
    ensures forall u :: u in Collect(items, f).value <==> exists x | x in items :: f(x).Ok? && u in f(x).value
  {
    if items != [] { CollectMember(items[1..], f); }
  }

  lemma {:induction false} CollectSame<T, U, E>(items: seq<T>, f: T -> Result<seq<U>, E>, g: T -> Result<seq<U>, E>)
    requires forall x | x in items :: f(x) == g(x)
    ensures Collect(items, f) == Collect(items, g)
  {
    if items != [] { CollectSame(items[1..], f, g); }
  }
}
