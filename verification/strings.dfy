/**
 * The order in which module names are reported: `Array.prototype.sort` without a
 * comparator orders strings by comparing their UTF-16 code units one by one, a
 * shorter string coming before every longer string it is a prefix of. Here a
 * string is a sequence of Unicode scalar values; the two orders agree on strings
 * without characters outside the Basic Multilingual Plane, which covers the
 * ASCII module names.
 */
module Strings {

  /** Strict lexicographic order on code units. */
  predicate Below(a: string, b: string)
    decreases |a|
  {
    if a == [] then b != []
    else b != [] && (a[0] < b[0] || (a[0] == b[0] && Below(a[1..], b[1..])))
  }

  lemma {:induction false} BelowIrreflexive(a: string)
    ensures !Below(a, a)
    decreases |a|
  {
    if a != [] {
      BelowIrreflexive(a[1..]);
    }
  }

  lemma {:induction false} BelowTransitive(a: string, b: string, c: string)
    requires Below(a, b) && Below(b, c)
    ensures Below(a, c)
    decreases |a|
  {
    if a != [] && a[0] == b[0] && b[0] == c[0] {
      BelowTransitive(a[1..], b[1..], c[1..]);
    }
  }

  /** A common prefix does not change the order. */
  lemma {:induction false} BelowAfterPrefix(p: string, a: string, b: string)
    requires Below(a, b)
    ensures Below(p + a, p + b)
    decreases |p|
  {
    if p != [] {
      BelowAfterPrefix(p[1..], a, b);
      assert (p + a)[0] == p[0] == (p + b)[0];
      assert (p + a)[1..] == p[1..] + a && (p + b)[1..] == p[1..] + b;
    } else {
      assert p + a == a && p + b == b;
    }
  }

  /** Any two distinct strings are ordered one way or the other. */
  lemma {:induction false} BelowTotal(a: string, b: string)
    ensures a == b || Below(a, b) || Below(b, a)
    decreases |a|
  {
    if a != [] && b != [] && a[0] == b[0] {
      BelowTotal(a[1..], b[1..]);
      if a[1..] == b[1..] {
        assert a == [a[0]] + a[1..] && b == [b[0]] + b[1..];
      }
    }
  }

  /** Ascending and therefore free of duplicates. */
  ghost predicate StrictlySorted(xs: seq<string>) {
    forall i, j :: 0 <= i < j < |xs| ==> Below(xs[i], xs[j])
  }

  lemma SortedHasNoDuplicates(xs: seq<string>, i: int, j: int)
    requires StrictlySorted(xs) && 0 <= i < j < |xs|
    ensures xs[i] != xs[j]
  {
    BelowIrreflexive(xs[i]);
  }

  /** A set of names has exactly one ascending listing. */
  lemma {:induction false} SortedUnique(xs: seq<string>, ys: seq<string>)
    requires StrictlySorted(xs) && StrictlySorted(ys)
    requires forall s :: s in xs <==> s in ys
    ensures xs == ys
    decreases |xs|
  {
    BothEmptyOrNeither(xs, ys);
    if xs != [] {
      if xs[0] != ys[0] {
        assert xs[0] in ys && ys[0] in xs;
        var j :| 0 <= j < |ys| && ys[j] == xs[0];
        var i :| 0 <= i < |xs| && xs[i] == ys[0];
        BelowTransitive(xs[0], ys[0], xs[0]);
        BelowIrreflexive(xs[0]);
      }
      forall s ensures s in xs[1..] <==> s in ys[1..] {
        if s in xs[1..] {
          var i :| 1 <= i < |xs| && xs[i] == s;
          SortedHasNoDuplicates(xs, 0, i);
          assert s in ys;
          var j :| 0 <= j < |ys| && ys[j] == s;
          assert ys[1..][j - 1] == s;
        }
        if s in ys[1..] {
          var j :| 1 <= j < |ys| && ys[j] == s;
          SortedHasNoDuplicates(ys, 0, j);
          assert s in xs;
          var i :| 0 <= i < |xs| && xs[i] == s;
          assert xs[1..][i - 1] == s;
        }
      }
      SortedUnique(xs[1..], ys[1..]);
    }
  }

  lemma BothEmptyOrNeither(xs: seq<string>, ys: seq<string>)
    requires forall s :: s in xs <==> s in ys
    ensures xs == [] <==> ys == []
  {
    if xs != [] { assert xs[0] in ys; }
    if ys != [] { assert ys[0] in xs; }
  }

  /** Puts `x` into its place in the sorted `xs`, unless it is there already. */
  function Insert(x: string, xs: seq<string>): (r: seq<string>)
    requires StrictlySorted(xs)
    ensures StrictlySorted(r)
    ensures forall s :: s in r <==> s == x || s in xs
    decreases |xs|
  {
    if xs == [] then [x]
    else if x == xs[0] then xs
    else if Below(x, xs[0]) then
      assert forall j :: 0 < j < |xs| ==> Below(x, xs[j]) by {
        forall j | 0 < j < |xs| { BelowTransitive(x, xs[0], xs[j]); }
      }
      [x] + xs
    else
      BelowTotal(x, xs[0]);
      var rest := Insert(x, xs[1..]);
      assert forall s :: s in rest ==> Below(xs[0], s);
      [xs[0]] + rest
  }

  /** The names of `xs`, each once, in ascending order. */
  function SortUnique(xs: seq<string>): (r: seq<string>)
    ensures StrictlySorted(r)
    ensures forall s :: s in r <==> s in xs
    decreases |xs|
  {
    if xs == [] then [] else Insert(xs[0], SortUnique(xs[1..]))
  }
}
