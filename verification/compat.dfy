/**
 * The compat resolver of core-js-compat: given a module selector, an exclude
 * selector, the target engines and an `inverse` flag it answers which polyfill
 * modules the targets still need (`list`) and, per module, which engines at which
 * requested versions need it (`targets`).
 *
 * The registry the resolver reads (module names, their require lists, the first
 * native version per engine, and the entry points with the modules they load) is a
 * parameter; `CompatToy` gives a small instance.
 *
 * Exclusion policy: ABSOLUTE. The dependency closure starts from the selected
 * modules minus the excluded ones, and the excluded modules are then removed from
 * the closure again, so an excluded module never appears in the result, while the
 * modules it requires still do when something else selected reaches them.
 */
module Compat {
  import opened Wrappers
  import Strings

  type Name = string
  type Engine = string

  /** An engine version of two components, as the target normaliser produces it. */
  datatype Version = Version(major: nat, minor: nat)

  /** `a` is an earlier version than `b`: majors first, then minors. */
  predicate Older(a: Version, b: Version) {
    a.major < b.major || (a.major == b.major && a.minor < b.minor)
  }

  /**
   * The read-only registry:
   *  - `modules`: every module name (the universe selectors are matched against);
   *  - `deps`: the modules each module requires;
   *  - `support`: per module, per engine, the first version with native support
   *    (an engine missing here never supports the module natively);
   *  - `entries`: per entry point (`core-js/es/math`, `core-js`), the modules it loads.
   */
  datatype Registry = Registry(
    modules: seq<Name>,
    deps: map<Name, seq<Name>>,
    support: map<Name, map<Engine, Version>>,
    entries: map<Name, seq<Name>>)

  function Universe(r: Registry): set<Name> {
    set m | m in r.modules
  }

  /** The modules `m` requires, as far as the registry knows them. */
  function Deps(r: Registry, m: Name): (ds: set<Name>)
    ensures ds <= Universe(r)
  {
    if m in r.deps then set d | d in r.deps[m] && d in r.modules else {}
  }

  // ---------------------------------------------------------------- selectors

  /**
   * One element of a selector: a string, which names an entry point or a module,
   * or a regular expression, here the predicate it decides on names.
   */
  datatype Atom = Literal(name: string) | Pattern(test: Name -> bool)

  /** A `modules` or `exclude` option: one element, or an array of them. */
  datatype Selector = Single(atom: Atom) | List(atoms: seq<Atom>)

  /** The selector that an omitted `modules` option stands for. */
  const AllModules: Selector := Single(Literal("core-js"))

  /**
   * The modules an atom selects: an entry point selects the modules it loads, a
   * module name selects itself, any other string nothing; a pattern selects every
   * module name it accepts.
   */
  function MatchAtom(r: Registry, a: Atom): (s: set<Name>)
    ensures s <= Universe(r)
    ensures a.Literal? && a.name in r.entries ==> forall m :: m in s <==> m in r.entries[a.name] && m in r.modules
    ensures a.Literal? && a.name !in r.entries && a.name in r.modules ==> s == {a.name}
    ensures a.Literal? && a.name !in r.entries && a.name !in r.modules ==> s == {}
    ensures a.Pattern? ==> forall m :: m in s <==> m in Universe(r) && a.test(m)
  {
    match a
    case Literal(n) =>
      if n in r.entries then set m | m in r.entries[n] && m in r.modules
      else if n in r.modules then {n}
      else {}
    case Pattern(p) => set m | m in r.modules && p(m)
  }

  /** An array of atoms selects the union of what its elements select. */
  function MatchList(r: Registry, atoms: seq<Atom>): (s: set<Name>)
    ensures s <= Universe(r)
    ensures forall n :: n in s <==> exists i :: 0 <= i < |atoms| && n in MatchAtom(r, atoms[i])
    decreases |atoms|
  {
    if atoms == [] then {}
    else
      var rest := MatchList(r, atoms[1..]);
      assert forall n :: n in rest <==> exists i :: 1 <= i < |atoms| && n in MatchAtom(r, atoms[i]) by {
        forall n | n in rest ensures exists i :: 1 <= i < |atoms| && n in MatchAtom(r, atoms[i]) {
          var i :| 0 <= i < |atoms[1..]| && n in MatchAtom(r, atoms[1..][i]);
          assert atoms[1..][i] == atoms[i + 1];
        }
        forall n, i | 1 <= i < |atoms| && n in MatchAtom(r, atoms[i]) ensures n in rest {
          assert atoms[1..][i - 1] == atoms[i];
        }
      }
      MatchAtom(r, atoms[0]) + rest
  }

  function Match(r: Registry, s: Selector): (ns: set<Name>)
    ensures ns <= Universe(r)
  {
    match s
    case Single(a) => MatchAtom(r, a)
    case List(atoms) => MatchList(r, atoms)
  }

  /** An array of one element selects what that element selects alone. */
  lemma ListOfOne(r: Registry, a: Atom)
    ensures Match(r, List([a])) == Match(r, Single(a))
  {
    assert forall n :: n in MatchList(r, [a]) <==> n in MatchAtom(r, a) by {
      forall n ensures n in MatchList(r, [a]) <==> n in MatchAtom(r, a) {
        if n in MatchAtom(r, a) { assert [a][0] == a; }
      }
    }
  }

  /** Concatenated arrays select the union of what each selects. */
  lemma {:induction false} ListConcat(r: Registry, xs: seq<Atom>, ys: seq<Atom>)
    ensures Match(r, List(xs + ys)) == Match(r, List(xs)) + Match(r, List(ys))
  {
    var zs := xs + ys;
    forall n ensures n in MatchList(r, zs) <==> n in MatchList(r, xs) || n in MatchList(r, ys) {
      if n in MatchList(r, zs) {
        var i :| 0 <= i < |zs| && n in MatchAtom(r, zs[i]);
        if i < |xs| { assert zs[i] == xs[i]; } else { assert zs[i] == ys[i - |xs|]; }
      }
      if n in MatchList(r, xs) {
        var i :| 0 <= i < |xs| && n in MatchAtom(r, xs[i]);
        assert zs[i] == xs[i];
      }
      if n in MatchList(r, ys) {
        var i :| 0 <= i < |ys| && n in MatchAtom(r, ys[i]);
        assert zs[|xs| + i] == ys[i];
      }
    }
  }

  /** The registry's `core-js` entry point loads every module, as in the real package. */
  ghost predicate CoreJsLoadsAll(r: Registry) {
    "core-js" in r.entries && forall m :: m in r.modules ==> m in r.entries["core-js"]
  }

  // --------------------------------------------------------- dependency closure

  /** Every module of `c` has its requirements in `c`. */
  ghost predicate DepClosed(r: Registry, c: set<Name>) {
    forall m, d :: m in c && d in Deps(r, m) ==> d in c
  }

  /** One round of the fixpoint: `s` and everything its members require. */
  function Expand(r: Registry, s: set<Name>): (t: set<Name>)
    requires s <= Universe(r)
    ensures s <= t <= Universe(r)
    ensures t == s <==> DepClosed(r, s)
  {
    s + set m, d | m in s && d in Deps(r, m) :: d
  }

  lemma ProperSubsetShrinksRest(u: set<Name>, s: set<Name>, t: set<Name>)
    requires s <= t <= u && s != t
    ensures |u - t| < |u - s|
  {
    var x :| x in t && x !in s;
    SubsetNoLarger(u - t, (u - s) - {x});
  }

  lemma {:induction false} SubsetNoLarger<T>(a: set<T>, b: set<T>)
    requires a <= b
    ensures |a| <= |b|
    decreases |a|
  {
    if a != {} {
      var x :| x in a;
      SubsetNoLarger(a - {x}, b - {x});
    }
  }

  /**
   * The dependency closure of `s`, as a fixpoint over the visited set `s`: it
   * grows until no member requires anything outside it. The measure is the set of
   * registry names not yet visited, so cycles in the require graph are harmless.
   */
  function Close(r: Registry, s: set<Name>): (c: set<Name>)
    requires s <= Universe(r)
    ensures s <= c <= Universe(r)
    ensures DepClosed(r, c)
    decreases |Universe(r) - s|
  {
    var t := Expand(r, s);
    if t == s then s
    else
      ProperSubsetShrinksRest(Universe(r), s, t);
      Close(r, t)
  }

  /** The closure is the least dependency-closed superset of the seed. */
  lemma {:induction false} CloseLeast(r: Registry, s: set<Name>, t: set<Name>)
    requires s <= Universe(r)
    requires s <= t && DepClosed(r, t)
    ensures Close(r, s) <= t
    decreases |Universe(r) - s|
  {
    var e := Expand(r, s);
    if e != s {
      assert e <= t;
      ProperSubsetShrinksRest(Universe(r), s, e);
      CloseLeast(r, e, t);
    }
  }

  /** Closing twice adds nothing; a larger seed has a larger closure. */
  lemma CloseIdempotentMonotone(r: Registry, s: set<Name>, s': set<Name>)
    requires s <= s' <= Universe(r)
    ensures Close(r, Close(r, s)) == Close(r, s)
    ensures Close(r, s) <= Close(r, s')
  {
    CloseLeast(r, s, Close(r, s'));
  }

  // -------------------------------------------------------------- needed filter

  /** The normalised targets: engine to the version that must be supported. */
  type Targets = map<Engine, Version>

  /**
   * Module `m` is still needed on engine `e` at version `v`: the engine has no
   * native version for it, or `v` is older than that version.
   */
  predicate NeededOn(r: Registry, m: Name, e: Engine, v: Version) {
    !(m in r.support && e in r.support[m]) || Older(v, r.support[m][e])
  }

  /** The targets that still need `m`, each with its requested version. */
  function EnginesNeeding(r: Registry, m: Name, t: Targets): map<Engine, Version> {
    map e | e in t && NeededOn(r, m, e, t[e]) :: t[e]
  }

  /** Without targets every module is needed; otherwise when some target needs it. */
  predicate Needed(r: Registry, m: Name, t: Targets) {
    t == map[] || EnginesNeeding(r, m, t) != map[]
  }

  // ------------------------------------------------------------------- resolver

  /** The options of `compat({modules, exclude, targets, inverse})`. */
  datatype Options = Options(
    modules: Option<Selector>,
    exclude: Option<Selector>,
    targets: Targets,
    inverse: bool)

  /** The result object `{list, targets}`. */
  datatype Result = Result(list: seq<Name>, targets: map<Name, map<Engine, Version>>)

  function Included(r: Registry, o: Options): set<Name> {
    Match(r, o.modules.GetOr(AllModules))
  }

  function Excluded(r: Registry, o: Options): set<Name> {
    if o.exclude.Some? then Match(r, o.exclude.value) else {}
  }

  /** The modules considered before the needed-filter. */
  function Candidates(r: Registry, o: Options): (c: set<Name>)
    ensures c <= Universe(r)
  {
    Close(r, Included(r, o) - Excluded(r, o)) - Excluded(r, o)
  }

  /** The candidates reported: the needed ones, or under `inverse` the others. */
  function Reported(r: Registry, o: Options): (rep: set<Name>)
    ensures rep <= Candidates(r, o)
  {
    set m | m in Candidates(r, o) && Needed(r, m, o.targets) != o.inverse
  }

  /** The modules of `kept` in ascending order, each once. */
  function SortedNames(r: Registry, kept: set<Name>): (list: seq<Name>)
    requires kept <= Universe(r)
    ensures Strings.StrictlySorted(list)
    ensures forall n :: n in list <==> n in kept
  {
    Strings.SortUnique(Only(r.modules, kept))
  }

  /** For each module of `kept`, the targets that still need it. */
  function EngineTable(r: Registry, kept: set<Name>, t: Targets): (tab: map<Name, map<Engine, Version>>)
    ensures forall n :: n in tab <==> n in kept
    ensures forall n :: n in tab ==> tab[n] == EnginesNeeding(r, n, t)
    ensures forall n, e :: n in tab ==> (e in tab[n] <==> e in t && NeededOn(r, n, e, t[e]))
    ensures forall n, e :: n in tab && e in tab[n] ==> tab[n][e] == t[e]
  {
    map m | m in kept :: EnginesNeeding(r, m, t)
  }

  /** The names of `xs` that belong to `keep`, in the order of `xs`. */
  function Only(xs: seq<Name>, keep: set<Name>): (ys: seq<Name>)
    ensures forall n :: n in ys <==> n in xs && n in keep
  {
    if xs == [] then []
    else if xs[0] in keep then [xs[0]] + Only(xs[1..], keep)
    else Only(xs[1..], keep)
  }

  /**
   * `compat(options)`: the reported modules in ascending order without duplicates,
   * and for each of them the targets that still need it with the requested version.
   */
  function Resolve(r: Registry, o: Options): (res: Result)
    ensures Strings.StrictlySorted(res.list)
    ensures forall n :: n in res.list <==> n in res.targets
    ensures forall n :: n in res.list <==> n in Reported(r, o)
    ensures forall n, e :: n in res.targets ==>
      (e in res.targets[n] <==> e in o.targets && NeededOn(r, n, e, o.targets[e]))
    ensures forall n, e :: n in res.targets && e in res.targets[n] ==> res.targets[n][e] == o.targets[e]
    ensures forall n :: n in res.targets ==> res.targets[n] == EnginesNeeding(r, n, o.targets)
  {
    var kept := Reported(r, o);
    Result(SortedNames(r, kept), EngineTable(r, kept, o.targets))
  }

  // ------------------------------------------------------------------ properties

  /** A module the exclude option selects is never reported. */
  lemma ExcludedNeverReported(r: Registry, o: Options, n: Name)
    requires n in Excluded(r, o)
    ensures n !in Resolve(r, o).list && n !in Resolve(r, o).targets
  {
  }

  /**
   * Without targets and without `inverse`, every selected module that is not
   * excluded is reported, with an empty engine map.
   */
  lemma {:induction false} SelectedReportedWithoutTargets(r: Registry, o: Options, n: Name)
    requires o.targets == map[] && !o.inverse
    requires n in Included(r, o) && n !in Excluded(r, o)
    ensures n in Resolve(r, o).list
    ensures Resolve(r, o).targets[n] == map[]
  {
    assert n in Candidates(r, o);
  }

  /**
   * The requirements of a candidate are reported along with it when there are no
   * targets, unless they are excluded themselves.
   */
  lemma DependencyReported(r: Registry, o: Options, m: Name, d: Name)
    requires o.targets == map[] && !o.inverse
    requires m in Resolve(r, o).list && d in Deps(r, m) && d !in Excluded(r, o)
    ensures d in Resolve(r, o).list
  {
    var c := Close(r, Included(r, o) - Excluded(r, o));
    assert m in c;
  }

  /** With no targets and no inverse the list is exactly the candidates. */
  lemma NoTargetsReportsAllCandidates(r: Registry, o: Options)
    requires o.targets == map[] && !o.inverse
    ensures forall n :: n in Resolve(r, o).list <==> n in Candidates(r, o)
    ensures forall n :: n in Resolve(r, o).targets ==> Resolve(r, o).targets[n] == map[]
  {
  }

  /**
   * `inverse` reports exactly the candidates the same call without it leaves out:
   * the two lists never overlap and together cover the candidates.
   */
  lemma InverseComplements(r: Registry, o: Options, n: Name)
    ensures var plain := Resolve(r, o.(inverse := false));
            var inv := Resolve(r, o.(inverse := true));
            (n in inv.list <==> n in Candidates(r, o) && n !in plain.list)
  {
    assert Candidates(r, o.(inverse := false)) == Candidates(r, o);
    assert Candidates(r, o.(inverse := true)) == Candidates(r, o);
  }

  /** Under `inverse` no engine needs any reported module. */
  lemma InverseReportsNoEngines(r: Registry, o: Options, n: Name)
    requires o.inverse && n in Resolve(r, o).targets
    ensures Resolve(r, o).targets[n] == map[]
  {
  }

  /**
   * In a registry whose `core-js` entry point loads every module, an omitted
   * `modules` option selects the entire registry.
   */
  lemma OmittedSelectsEverything(r: Registry, o: Options)
    requires o.modules.None? && CoreJsLoadsAll(r)
    ensures Included(r, o) == Universe(r)
  {
  }

  /** An omitted `modules` option is the same as `modules: 'core-js'`. */
  lemma OmittedModulesIsCoreJs(r: Registry, o: Options)
    requires o.modules.None?
    ensures Resolve(r, o) == Resolve(r, o.(modules := Some(Single(Literal("core-js")))))
  {
  }
}
