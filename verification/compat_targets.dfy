/**
 * A registry with a require edge and native versions, in the shape of the
 * "some targets" case of the compat resolver: the `core-js/es/math` entry point
 * with targets chrome 40 and firefox 27. The version numbers are illustrative;
 * what matters is which side of each target they fall on.
 */
module CompatTargets {
  import opened Wrappers
  import opened Compat
  import Strings

  const MathEntry := "core-js/es/math"
  const ArrayIterator := "es.array.iterator"
  const Acosh := "es.math.acosh"
  const Clz32 := "es.math.clz32"
  const SumPrecise := "es.math.sum-precise"

  /**
   * `es.math.sum-precise` requires `es.array.iterator` (it walks an iterable);
   * the entry point loads the three math modules. `es.math.sum-precise` has no
   * native version recorded, so every target needs it.
   */
  const Math: Registry := Registry(
    [ArrayIterator, Acosh, Clz32, SumPrecise],
    map[SumPrecise := [ArrayIterator]],
    map[
      ArrayIterator := map["chrome" := Version(66, 0), "firefox" := Version(60, 0)],
      Acosh := map["chrome" := Version(54, 0), "firefox" := Version(25, 0)],
      Clz32 := map["chrome" := Version(38, 0), "firefox" := Version(31, 0)]],
    map[MathEntry := [Acosh, Clz32, SumPrecise]])

  const Chrome40Firefox27: Targets := map["chrome" := Version(40, 0), "firefox" := Version(27, 0)]

  const MathOpts := Options(Some(Single(Literal(MathEntry))), None, Chrome40Firefox27, false)

  /** The closure of the entry point's modules adds the module `es.math.sum-precise` requires. */
  lemma MathCandidates()
    ensures Candidates(Math, MathOpts) == {ArrayIterator, Acosh, Clz32, SumPrecise}
  {
    var seed := Included(Math, MathOpts) - Excluded(Math, MathOpts);
    assert seed == {Acosh, Clz32, SumPrecise};
    var c := Close(Math, seed);
    assert ArrayIterator in Deps(Math, SumPrecise);
    assert ArrayIterator in c;
    assert c <= Universe(Math);
  }

  /** `es.array.iterator` is native on neither target: both need it. */
  lemma ArrayIteratorEngines()
    ensures EnginesNeeding(Math, ArrayIterator, Chrome40Firefox27) == Chrome40Firefox27
  {
    assert Math.support[ArrayIterator] == map["chrome" := Version(66, 0), "firefox" := Version(60, 0)];
  }

  /** `es.math.acosh` is native on firefox 27 but not on chrome 40. */
  lemma AcoshEngines()
    ensures EnginesNeeding(Math, Acosh, Chrome40Firefox27) == map["chrome" := Version(40, 0)]
  {
    assert Math.support[Acosh] == map["chrome" := Version(54, 0), "firefox" := Version(25, 0)];
  }

  /** `es.math.clz32` is native on chrome 40 but not on firefox 27. */
  lemma Clz32Engines()
    ensures EnginesNeeding(Math, Clz32, Chrome40Firefox27) == map["firefox" := Version(27, 0)]
  {
    assert Math.support[Clz32] == map["chrome" := Version(38, 0), "firefox" := Version(31, 0)];
  }

  /** `es.math.sum-precise` is native nowhere: both targets need it. */
  lemma SumPreciseEngines()
    ensures EnginesNeeding(Math, SumPrecise, Chrome40Firefox27) == Chrome40Firefox27
  {
    assert SumPrecise !in Math.support;
  }

  /** Each of the four is needed by some target, so all four are reported. */
  lemma MathReported()
    ensures Reported(Math, MathOpts) == {ArrayIterator, Acosh, Clz32, SumPrecise}
  {
    MathCandidates();
    var t := Chrome40Firefox27;
    assert Needed(Math, ArrayIterator, t) by {
      ArrayIteratorEngines();
      assert "chrome" in EnginesNeeding(Math, ArrayIterator, t);
    }
    assert Needed(Math, Acosh, t) by {
      AcoshEngines();
      assert "chrome" in EnginesNeeding(Math, Acosh, t);
    }
    assert Needed(Math, Clz32, t) by {
      Clz32Engines();
      assert "firefox" in EnginesNeeding(Math, Clz32, t);
    }
    assert Needed(Math, SumPrecise, t) by {
      SumPreciseEngines();
      assert "chrome" in EnginesNeeding(Math, SumPrecise, t);
    }
  }

  lemma MathNamesAscend()
    ensures Strings.Below(ArrayIterator, Acosh) && Strings.Below(Acosh, Clz32)
    ensures Strings.Below(Clz32, SumPrecise)
  {
    NamespacesAscend();
    AcoshBeforeClz32();
    Clz32BeforeSumPrecise();
  }

  /** The `array` namespace sorts before the `math` namespace. */
  lemma NamespacesAscend()
    ensures Strings.Below(ArrayIterator, Acosh)
  {
    assert ArrayIterator == "es." + "array.iterator";
    assert Acosh == "es." + "math.acosh";
    Strings.BelowAfterPrefix("es.", "array.iterator", "math.acosh");
  }

  lemma AcoshBeforeClz32()
    ensures Strings.Below(Acosh, Clz32)
  {
    assert Acosh == "es.math." + "acosh";
    assert Clz32 == "es.math." + "clz32";
    Strings.BelowAfterPrefix("es.math.", "acosh", "clz32");
  }

  lemma Clz32BeforeSumPrecise()
    ensures Strings.Below(Clz32, SumPrecise)
  {
    assert Clz32 == "es.math." + "clz32";
    assert SumPrecise == "es.math." + "sum-precise";
    Strings.BelowAfterPrefix("es.math.", "clz32", "sum-precise");
  }

  /** Four names in a row, each below the next, form a strictly ascending list. */
  lemma AscendingFour(a: Name, b: Name, c: Name, d: Name)
    requires Strings.Below(a, b) && Strings.Below(b, c) && Strings.Below(c, d)
    ensures Strings.StrictlySorted([a, b, c, d])
  {
    Strings.BelowTransitive(a, b, c);
    Strings.BelowTransitive(b, c, d);
    Strings.BelowTransitive(a, c, d);
  }

  lemma MathListed(xs: seq<Name>)
    requires Strings.StrictlySorted(xs)
    requires forall n :: n in xs <==> n == ArrayIterator || n == Acosh || n == Clz32 || n == SumPrecise
    ensures xs == [ArrayIterator, Acosh, Clz32, SumPrecise]
  {
    MathNamesAscend();
    ListedInOrder(xs, ArrayIterator, Acosh, Clz32, SumPrecise);
  }

  /** A strictly ascending list of exactly four ascending names is those names in order. */
  lemma ListedInOrder(xs: seq<Name>, a: Name, b: Name, c: Name, d: Name)
    requires Strings.StrictlySorted(xs)
    requires Strings.Below(a, b) && Strings.Below(b, c) && Strings.Below(c, d)
    requires forall n :: n in xs <==> n == a || n == b || n == c || n == d
    ensures xs == [a, b, c, d]
  {
    AscendingFour(a, b, c, d);
    Strings.SortedUnique(xs, [a, b, c, d]);
  }

  /** The resolver lists the four modules in ascending order. */
  lemma SomeTargetsList()
    ensures Resolve(Math, MathOpts).list == [ArrayIterator, Acosh, Clz32, SumPrecise]
  {
    MathReportedListed(Resolve(Math, MathOpts).list);
  }

  lemma MathReportedMembers(xs: seq<Name>)
    requires forall n :: n in xs <==> n in Reported(Math, MathOpts)
    ensures forall n :: n in xs <==> n == ArrayIterator || n == Acosh || n == Clz32 || n == SumPrecise
  {
    MathReported();
  }

  lemma MathReportedListed(xs: seq<Name>)
    requires Strings.StrictlySorted(xs)
    requires forall n :: n in xs <==> n in Reported(Math, MathOpts)
    ensures xs == [ArrayIterator, Acosh, Clz32, SumPrecise]
  {
    MathReportedMembers(xs);
    MathListed(xs);
  }

  /**
   * `es.math.acosh` is needed on chrome 40 only, `es.math.clz32` on firefox 27
   * only, and `es.math.sum-precise` and the `es.array.iterator` it requires on both.
   */
  lemma SomeTargets()
    ensures ArrayIterator in Resolve(Math, MathOpts).targets && SumPrecise in Resolve(Math, MathOpts).targets
    ensures Acosh in Resolve(Math, MathOpts).targets && Clz32 in Resolve(Math, MathOpts).targets
    ensures Resolve(Math, MathOpts).targets[ArrayIterator] == Chrome40Firefox27
    ensures Resolve(Math, MathOpts).targets[Acosh] == map["chrome" := Version(40, 0)]
    ensures Resolve(Math, MathOpts).targets[Clz32] == map["firefox" := Version(27, 0)]
    ensures Resolve(Math, MathOpts).targets[SumPrecise] == Chrome40Firefox27
  {
    var res := Resolve(Math, MathOpts);
    MathReported();
    assert ArrayIterator in res.targets && Acosh in res.targets && Clz32 in res.targets && SumPrecise in res.targets;
    ArrayIteratorEngines();
    AcoshEngines();
    Clz32Engines();
    SumPreciseEngines();
  }

  /** The pattern `/^es\.math\.a/`. */
  predicate MathA(m: Name) {
    |m| >= 9 && m[..9] == "es.math.a"
  }

  const MathAOpts := Options(Some(Single(Pattern(MathA))), None, map[], false)

  /**
   * The require edge does not leak into a selection that avoids
   * `es.math.sum-precise`: the pattern picks `es.math.acosh` alone, which
   * requires nothing, so `es.array.iterator` is not reported.
   */
  lemma PatternSkipsRequiredIterator()
    ensures Resolve(Math, MathAOpts).list == [Acosh]
    ensures ArrayIterator !in Resolve(Math, MathAOpts).list
  {
    assert Included(Math, MathAOpts) == {Acosh} by {
      assert MathA(Acosh);
      assert ArrayIterator[..9][3] == 'a' != "es.math.a"[3];
      assert Clz32[..9][8] == 'c' != "es.math.a"[8];
      assert SumPrecise[..9][8] == 's' != "es.math.a"[8];
    }
    assert Close(Math, {Acosh}) == {Acosh} by {
      assert Expand(Math, {Acosh}) == {Acosh} by {
        assert Deps(Math, Acosh) == {};
      }
    }
    NoTargetsReportsAllCandidates(Math, MathAOpts);
    var xs := Resolve(Math, MathAOpts).list;
    assert forall n :: n in xs <==> n == Acosh;
    Strings.SortedUnique(xs, [Acosh]);
  }
}
