/**
 * A small registry for the compat resolver, built from the require lists of two
 * entry points: `core-js/es/iterator/flat-map` and `core-js/full/weak-map/from`.
 * It records no require graph between modules and no native versions, so with
 * targets every module counts as needed on every engine.
 */
module CompatToy {
  import opened Wrappers
  import opened Compat
  import Strings

  const FlatMap := "core-js/es/iterator/flat-map"
  const WeakMapFrom := "core-js/full/weak-map/from"

  const ToyModules: seq<Name> := [
    "es.array.iterator", "es.iterator.constructor", "es.iterator.flat-map",
    "es.object.to-string", "es.string.iterator", "es.weak-map.constructor",
    "esnext.weak-map.from", "web.dom-collections.iterator"]

  const Toy: Registry := Registry(
    ToyModules,
    map[],
    map[],
    map[
      FlatMap := ["es.array.iterator", "es.object.to-string", "es.iterator.constructor", "es.iterator.flat-map"],
      WeakMapFrom := ["es.array.iterator", "es.string.iterator", "es.weak-map.constructor",
                      "esnext.weak-map.from", "web.dom-collections.iterator"],
      "core-js" := ToyModules])

  const Opts := Options(Some(Single(Literal(FlatMap))), Some(Single(Literal("es.array.iterator"))), map[], false)

  lemma ToyIncluded()
    ensures Included(Toy, Opts) == {"es.array.iterator", "es.iterator.constructor", "es.iterator.flat-map", "es.object.to-string"}
  {
  }

  lemma ToyExcluded()
    ensures Excluded(Toy, Opts) == {"es.array.iterator"}
  {
  }

  lemma ToyCandidates()
    ensures Reported(Toy, Opts) == {"es.iterator.constructor", "es.iterator.flat-map", "es.object.to-string"}
  {
    ToyIncluded();
    ToyExcluded();
    var seed := {"es.iterator.constructor", "es.iterator.flat-map", "es.object.to-string"};
    assert Expand(Toy, seed) == seed;
  }

  lemma ListedInOrder(xs: seq<Name>, a: Name, b: Name, c: Name)
    requires Strings.StrictlySorted(xs)
    requires Strings.Below(a, b) && Strings.Below(b, c)
    requires forall s :: s in xs <==> s == a || s == b || s == c
    ensures xs == [a, b, c]
  {
    Strings.BelowTransitive(a, b, c);
    Strings.SortedUnique(xs, [a, b, c]);
  }

  lemma ToyNamesAscend()
    ensures Strings.Below("es.iterator.constructor", "es.iterator.flat-map")
    ensures Strings.Below("es.iterator.flat-map", "es.object.to-string")
  {
    IteratorNamesAscend();
    NamespacesAscend();
  }

  /** Within `es.iterator.`, `constructor` sorts before `flat-map`. */
  lemma IteratorNamesAscend()
    ensures Strings.Below("es.iterator.constructor", "es.iterator.flat-map")
  {
    assert "es.iterator.constructor" == "es.iterator." + "constructor";
    assert "es.iterator.flat-map" == "es.iterator." + "flat-map";
    Strings.BelowAfterPrefix("es.iterator.", "constructor", "flat-map");
  }

  /** Within `es.`, the `iterator` namespace sorts before `object`. */
  lemma NamespacesAscend()
    ensures Strings.Below("es.iterator.flat-map", "es.object.to-string")
  {
    assert "es.iterator.flat-map" == "es." + "iterator.flat-map";
    assert "es.object.to-string" == "es." + "object.to-string";
    Strings.BelowAfterPrefix("es.", "iterator.flat-map", "object.to-string");
  }


  lemma ToyListed(xs: seq<Name>)
    requires Strings.StrictlySorted(xs)
    requires forall n :: n in xs <==> n in {"es.iterator.constructor", "es.iterator.flat-map", "es.object.to-string"}
    ensures xs == ["es.iterator.constructor", "es.iterator.flat-map", "es.object.to-string"]
  {
    ToyNamesAscend();
    ListedInOrder(xs, "es.iterator.constructor", "es.iterator.flat-map", "es.object.to-string");
  }

  /** What the resolver reports, as a set, in any sequence that lists exactly it. */
  lemma ToyReportedMembers(xs: seq<Name>)
    requires forall n :: n in xs <==> n in Reported(Toy, Opts)
    ensures forall n :: n in xs <==> n in {"es.iterator.constructor", "es.iterator.flat-map", "es.object.to-string"}
  {
    ToyCandidates();
  }

  lemma ToyReportedListed(xs: seq<Name>)
    requires Strings.StrictlySorted(xs)
    requires forall n :: n in xs <==> n in Reported(Toy, Opts)
    ensures xs == ["es.iterator.constructor", "es.iterator.flat-map", "es.object.to-string"]
  {
    ToyReportedMembers(xs);
    ToyListed(xs);
  }

  /**
   * The flat-map entry point with `es.array.iterator` excluded and no targets
   * reports the other three modules it loads, in ascending order, each with an
   * empty engine map.
   */
  lemma FlatMapWithoutArrayIterator()
    ensures Resolve(Toy, Opts).list == ["es.iterator.constructor", "es.iterator.flat-map", "es.object.to-string"]
    ensures forall n :: n in Resolve(Toy, Opts).targets ==> Resolve(Toy, Opts).targets[n] == map[]
  {
    ToyReportedListed(Resolve(Toy, Opts).list);
  }

  /**
   * The two entry points together load every toy module: an array selector
   * selects the union of what its elements select, `es.array.iterator` (loaded
   * by both) included once.
   */
  lemma BothEntriesSelectAll()
    ensures Match(Toy, List([Literal(FlatMap), Literal(WeakMapFrom)])) == Universe(Toy)
  {
    ListConcat(Toy, [Literal(FlatMap)], [Literal(WeakMapFrom)]);
    ListOfOne(Toy, Literal(FlatMap));
    ListOfOne(Toy, Literal(WeakMapFrom));
    assert [Literal(FlatMap)] + [Literal(WeakMapFrom)] == [Literal(FlatMap), Literal(WeakMapFrom)];
  }
}
