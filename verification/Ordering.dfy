/** Sorting finite sets under a strict total order, and the order Python puts on strings. */
module Ordering {

  ghost predicate StrictTotal<T(!new)>(less: (T, T) -> bool) {
    && (forall a, b :: less(a, b) ==> !less(b, a))
    && (forall a, b :: a != b ==> less(a, b) || less(b, a))
    && (forall a, b, c :: less(a, b) && less(b, c) ==> less(a, c))
  }

  ghost predicate Ascending<T>(s: seq<T>, less: (T, T) -> bool) {
    forall i, j | 0 <= i < j < |s| :: less(s[i], s[j])
  }

  predicate IsLeast<T(==)>(m: T, s: set<T>, less: (T, T) -> bool) {
    m in s && forall x | x in s :: x == m || less(m, x)
  }

  lemma {:induction false} LeastExists<T(!new)>(s: set<T>, less: (T, T) -> bool)
    requires s != {} && StrictTotal(less)
    ensures exists m :: IsLeast(m, s, less)
    decreases s
  {
    var x :| x in s;
    if s - {x} == {} {
      assert s == {x};
      assert IsLeast(x, s, less);
    } else {
      LeastExists(s - {x}, less);
      var y :| IsLeast(y, s - {x}, less);
      assert IsLeast(if less(y, x) then y else x, s, less);
    }
  }

  function Least<T(!new, ==)>(s: set<T>, less: (T, T) -> bool): (m: T)
    requires s != {} && StrictTotal(less)
    ensures IsLeast(m, s, less)
  {
    LeastExists(s, less);
    var m :| IsLeast(m, s, less);
    m
  }

  /** `sorted(s, key=...)`: the elements of the set, each once, in ascending order. */
  function Sorted<T(!new, ==)>(s: set<T>, less: (T, T) -> bool): (r: seq<T>)
    requires StrictTotal(less)
    ensures Ascending(r, less)
    ensures forall x :: x in r <==> x in s
    decreases s
  {
    if s == {} then [] else
      var m := Least(s, less);
      var rest := Sorted(s - {m}, less);
      assert forall x | x in rest :: less(m, x);
      [m] + rest
  }

  /** A strictly ascending sequence is determined by its elements. */
  lemma {:induction false} AscendingUnique<T(!new)>(a: seq<T>, b: seq<T>, less: (T, T) -> bool)
    requires StrictTotal(less) && Ascending(a, less) && Ascending(b, less)
    requires forall x :: x in a <==> x in b
    ensures a == b
    decreases |a|
  {
    assert b == [] || b[0] in b;
    if a != [] {
      assert a[0] in b && b != [] && b[0] in a;
      assert a[0] == b[0];
      forall x ensures x in a[1..] <==> x in b[1..] {
        if x in a[1..] { assert less(a[0], x) && x in b; }
        if x in b[1..] { assert less(b[0], x) && x in a; }
      }
      AscendingUnique(a[1..], b[1..], less);
    }
  }

  /** Sorting the elements of an ascending sequence gives it back. */
  lemma SortedOfAscending<T(!new)>(a: seq<T>, s: set<T>, less: (T, T) -> bool)
    requires StrictTotal(less) && Ascending(a, less) && forall x :: x in a <==> x in s
    ensures Sorted(s, less) == a
  {
    AscendingUnique(Sorted(s, less), a, less);
  }

  // ---------------------------------------------------------------- strings

  /** Code point by code point, as `<` compares Python strings. */
  predicate StrLess(a: string, b: string) {
    b != "" && (a == "" || a[0] < b[0] || (a[0] == b[0] && StrLess(a[1..], b[1..])))
  }

  lemma {:induction false} StrLessAsymmetric(a: string, b: string)
    ensures StrLess(a, b) ==> !StrLess(b, a)
  {
    if a != "" && b != "" { StrLessAsymmetric(a[1..], b[1..]); }
  }

  lemma {:induction false} StrLessTotal(a: string, b: string)
    ensures a != b ==> StrLess(a, b) || StrLess(b, a)
  {
    if a != "" && b != "" {
      StrLessTotal(a[1..], b[1..]);
      if a[0] == b[0] && a[1..] == b[1..] { assert a == [a[0]] + a[1..] == b; }
    }
  }

  lemma {:induction false} StrLessTransitive(a: string, b: string, c: string)
    ensures StrLess(a, b) && StrLess(b, c) ==> StrLess(a, c)
  {
    if a != "" && b != "" && c != "" { StrLessTransitive(a[1..], b[1..], c[1..]); }
  }

  lemma StrLessStrictTotal()
    ensures StrictTotal(StrLess)
  {
    forall a, b ensures (StrLess(a, b) ==> !StrLess(b, a)) && (a != b ==> StrLess(a, b) || StrLess(b, a)) {
      StrLessAsymmetric(a, b);
      StrLessTotal(a, b);
    }
    forall a, b, c ensures StrLess(a, b) && StrLess(b, c) ==> StrLess(a, c) { StrLessTransitive(a, b, c); }
  }

  /** A text comes after its beginnings, and the first character that differs decides. */
  lemma {:induction false} StrLessByCharacter(p: string, c: char, a: string, d: char, b: string)
    ensures StrLess(p, p + [c] + a)
    ensures c < d ==> StrLess(p + [c] + a, p + [d] + b)
  {
    var x, y := p + [c] + a, p + [d] + b;
    if p != "" {
      StrLessByCharacter(p[1..], c, a, d, b);
      assert x[0] == p[0] == y[0] && x[1..] == p[1..] + [c] + a && y[1..] == p[1..] + [d] + b;
    }
  }

  /** `sorted(names)` for a set of strings. */
  function SortedNames(names: set<string>): (r: seq<string>)
    ensures Ascending(r, StrLess)
    ensures forall x :: x in r <==> x in names
  {
    StrLessStrictTotal();
    Sorted(names, StrLess)
  }

  lemma SortedNamesOfAscending(a: seq<string>, names: set<string>)
    requires Ascending(a, StrLess) && forall x :: x in a <==> x in names
    ensures SortedNames(names) == a
  {
    StrLessStrictTotal();
    SortedOfAscending(a, names, StrLess);
  }
}
