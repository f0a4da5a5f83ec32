# core-js: compat resolver, `Set.prototype.isDisjointFrom`, `Map`

A Dafny model of three pieces of core-js, with proofs of what they promise.

- **The core-js-compat resolver** `compat({modules, exclude, targets, inverse})`, in modules `Compat`, `Strings` and `CompatToy`. It works in four steps:
  - It matches the `modules` selector and the `exclude` selector against a registry of polyfill modules. A selector is a string naming an entry point or a module, a pattern, or an array of these.
  - It takes the dependency closure of the selected modules minus the excluded ones.
  - It keeps the modules that some target engine still needs, or the others under `inverse`.
  - It answers `{list, targets}`. `list` is the sorted module list. `targets` gives, per module, the engines that need it, each with its requested version.

  The registry is a parameter. `CompatToy` is a small instance built from the require lists of the `core-js/es/iterator/flat-map` and `core-js/full/weak-map/from` entry points. `CompatTargets` is a registry with a require edge and native versions, in the shape of the "some targets" case. Its require edge (`es.math.sum-precise` requires `es.array.iterator`) and its version numbers are illustrative.

  Exclusion is **absolute**. The closure is computed from the selection minus the exclusion, and the excluded modules are then taken out again. So an excluded module is never reported. Its own requirements are still reported when another selected module reaches them.
- **`Set.prototype.isDisjointFrom(other)`** (section 24.2.4.10 of ECMAScript 2025), in module `SetIsDisjointFrom`.
  - A receiver that is not a Set throws.
  - When the receiver's size is at most `other.size`, the receiver is scanned and `other`'s `has` is asked of each element.
  - Otherwise `other`'s keys are scanned and the receiver is asked of each key.
  - Either scan stops at the first shared element.
- **The insertion-ordered `Map`** (section 24.1 of ECMAScript 2025), in modules `MapData`, `MapObjects` and `MapScenarios`.
  - `MapData` is the entry list: slots in insertion order, with tombstones for deleted entries.
  - `MapObjects.OrderedMap` holds that list and the `size` count. Its methods `set`, `get`, `has`, `delete`, `clear` and `forEach` work on it in place.
  - `MapObjects.MapIterator` is a cursor into the same list, so it sees entries added later and skips entries deleted earlier.
  - `MapScenarios` replays the iterator and `forEach` scenarios of the test suite.

## Model

| member | source | states |
|---|---|---|
| `Compat.MatchAtom` | tests/compat-tools/compat.mjs:5-9 | a string naming an entry point selects exactly the registry modules it loads; a string naming only a module selects that module; an unknown string selects nothing; a pattern selects exactly the registry modules it accepts; nothing outside the registry is ever selected |
| `Compat.MatchList` | tests/compat-tools/compat.mjs:62-66 | an array selector selects exactly the names some element selects |
| `Compat.ListOfOne` | tests/compat-tools/compat.mjs:10-12 | an array of one element selects what that element selects alone |
| `Compat.ListConcat` | tests/compat-tools/compat.mjs:4-36 | the selection of concatenated arrays is the union of their selections |
| `Compat.OmittedSelectsEverything` | tests/compat-tools/compat.mjs:99-103 | in a registry whose `core-js` entry point loads every module, omitting `modules` selects the entire registry |
| `Compat.Deps` | tests/compat-tools/compat.mjs:15-17 | the requirements followed by the closure are registry modules |
| `Compat.Expand` | tests/compat-tools/compat.mjs:112-113 | one closure round only adds registry modules, and adds nothing exactly when the set is already dependency-closed |
| `Compat.Close` | tests/compat-tools/compat.mjs:15-17 | the closure contains its seed, stays in the registry and is dependency-closed (terminating on cyclic require graphs) |
| `Compat.CloseLeast` | tests/compat-tools/compat.mjs:15-17 | the closure is contained in every dependency-closed superset of the seed |
| `Compat.CloseIdempotentMonotone` | tests/compat-tools/compat.mjs:112-113 | closing twice adds nothing, and a larger seed has a larger closure |
| `Compat.Candidates` | tests/compat-tools/compat.mjs:61-82 | the modules considered are registry modules |
| `Compat.Only` | tests/compat-tools/compat.mjs:15-36 | filtering the registry order keeps exactly the kept names |
| `Compat.Resolve` | tests/compat-tools/compat.mjs:4-59 | `list` is strictly ascending (so duplicate-free); its names are exactly the keys of `targets` and exactly the reported modules; each engine map holds exactly the targets that still need the module, each with the requested version |
| `Compat.ExcludedNeverReported` | tests/compat-tools/compat.mjs:61-82 | a module the exclude option selects appears neither in `list` nor in `targets` |
| `Compat.SelectedReportedWithoutTargets` | tests/compat-tools/compat.mjs:84-97 | without targets, a selected module that is not excluded is listed with an empty engine map |
| `Compat.DependencyReported` | tests/compat-tools/compat.mjs:15-17 | without targets, every requirement of a listed module is listed unless it is excluded |
| `Compat.NoTargetsReportsAllCandidates` | tests/compat-tools/compat.mjs:75-81 | without targets the list is exactly the closure minus the exclusion, and every engine map is empty |
| `Compat.InverseComplements` | tests/compat-tools/compat.mjs:134-143 | a module is in the `inverse` list exactly when it is a candidate (selected, closed, not excluded) that the plain list leaves out |
| `Compat.InverseReportsNoEngines` | tests/compat-tools/compat.mjs:134-143 | under `inverse` every reported module has an empty engine map |
| `Compat.OmittedModulesIsCoreJs` | tests/compat-tools/compat.mjs:99-103 | omitting `modules` gives the same result as `modules: 'core-js'` |
| `Strings.BelowIrreflexive` | tests/compat-tools/compat.mjs:15-35 | no name sorts strictly before itself |
| `Strings.BelowTransitive` | tests/compat-tools/compat.mjs:15-35 | the name order is transitive |
| `Strings.BelowTotal` | tests/compat-tools/compat.mjs:15-35 | any two distinct names are ordered one way or the other |
| `Strings.BelowAfterPrefix` | tests/compat-tools/compat.mjs:15-35 | a common prefix keeps the order of two names |
| `Strings.SortedUnique` | tests/compat-tools/compat.mjs:15-35 | two strictly ascending lists with the same names are equal, so the sorted list is determined by its set |
| `Strings.Insert` | tests/compat-tools/compat.mjs:68-74 | inserting into an ascending list keeps it ascending and adds exactly the new name |
| `Strings.SortUnique` | tests/compat-tools/compat.mjs:112-121 | the result is strictly ascending and holds exactly the input's names |
| `CompatToy.ToyIncluded` | packages/core-js/es/iterator/flat-map.js:2-5 | the flat-map entry point selects its four required modules |
| `CompatToy.ToyCandidates` | packages/core-js/es/iterator/flat-map.js:2-5 | with `es.array.iterator` excluded, the other three are reported |
| `CompatToy.ToyNamesAscend` | tests/compat-tools/compat.mjs:15-35 | the three reported names are in ascending order |
| `CompatToy.FlatMapWithoutArrayIterator` | packages/core-js/es/iterator/flat-map.js:2-5 | the resolver lists `es.iterator.constructor`, `es.iterator.flat-map`, `es.object.to-string` in that order, each with an empty engine map |
| `CompatToy.BothEntriesSelectAll` | packages/core-js/full/weak-map/from.js:2-6 | the array of both entry points selects every toy module, the shared `es.array.iterator` once |
| `CompatTargets.MathCandidates` | tests/compat-tools/compat.mjs:105-121 | the closure of the `core-js/es/math` modules adds `es.array.iterator`, the module `es.math.sum-precise` requires |
| `CompatTargets.ArrayIteratorEngines` | tests/compat-tools/compat.mjs:123 | a module native on neither target is needed on both, at the requested versions |
| `CompatTargets.AcoshEngines` | tests/compat-tools/compat.mjs:124 | a module native on firefox 27 but not on chrome 40 is needed on chrome 40 only |
| `CompatTargets.Clz32Engines` | tests/compat-tools/compat.mjs:125 | a module native on chrome 40 but not on firefox 27 is needed on firefox 27 only |
| `CompatTargets.SumPreciseEngines` | tests/compat-tools/compat.mjs:129 | a module with no recorded native version is needed on every target |
| `CompatTargets.MathReported` | tests/compat-tools/compat.mjs:111-121 | every module of the closure is needed by some target, so all are reported |
| `CompatTargets.SomeTargetsList` | tests/compat-tools/compat.mjs:112-121 | the resolver lists `es.array.iterator`, `es.math.acosh`, `es.math.clz32`, `es.math.sum-precise` in that order |
| `CompatTargets.SomeTargets` | tests/compat-tools/compat.mjs:122-131 | the engine maps are `{chrome, firefox}` for `es.array.iterator` and `es.math.sum-precise`, `{chrome: 40}` for `es.math.acosh` and `{firefox: 27}` for `es.math.clz32` |
| `CompatTargets.PatternSkipsRequiredIterator` | tests/compat-tools/compat.mjs:84-97 | `/^es\.math\.a/` with no targets lists `es.math.acosh` alone: the require edge of another module does not add `es.array.iterator` |
| `SetIsDisjointFrom.RecordOf` | packages/core-js/internals/set-is-disjoint-from.js:15 | the set record of a genuine Set (no repeated element) iterates exactly its elements, its `has` is membership in them, and its size is the number of distinct elements |
| `SetIsDisjointFrom.DistinctCount` | packages/core-js/internals/set-is-disjoint-from.js:16 | a list without repeats has as many elements as its set, so the receiver's length is `size(O)` in the size test |
| `SetIsDisjointFrom.FirstHit` | packages/core-js/internals/set-is-disjoint-from.js:18 | the index returned is the first element the query accepts, or the length when none does |
| `SetIsDisjointFrom.Scan` | packages/core-js/internals/set-is-disjoint-from.js:17-22 | the scan finds a hit exactly when some element is accepted, and asks about exactly the elements up to and including the first hit |
| `SetIsDisjointFrom.IsDisjointFrom` | packages/core-js/internals/set-is-disjoint-from.js:13-24 | a non-Set receiver gives TypeError before anything is asked; for a Set (no repeated element) the smaller-or-equal receiver is scanned against `includes`, otherwise `other`'s keys against the receiver, each stopping at the first shared element; with a faithful record the answer is exactly "the intersection is empty"; an empty receiver answers true without asking anything |
| `SetIsDisjointFrom.BetweenSets` | packages/core-js/internals/set-is-disjoint-from.js:13-24 | for two genuine Sets (no repeated element in either) the answer is exactly whether they share no element |
| `SetIsDisjointFrom.BranchesAgree` | packages/core-js/internals/set-is-disjoint-from.js:16-22 | with a faithful record, both scans answer "no shared element" exactly when the intersection is empty |
| `SetIsDisjointFrom.DisjointSymmetric` | packages/core-js/internals/set-is-disjoint-from.js:16-22 | disjointness does not depend on which side is the receiver |
| `SetIsDisjointFrom.SharedElementBreaksDisjointness` | packages/core-js/internals/set-is-disjoint-from.js:18 | one shared element makes the answer false |
| `MapData.Find` | tests/unit-global/es.map.js:185-200 | the index returned is the live slot holding the key, with no earlier live slot holding it, or the length when there is none |
| `MapData.FindIs` | tests/unit-global/es.map.js:185-200 | the first live slot holding the key is unique |
| `MapData.Put` | tests/unit-global/es.map.js:234-256 | `set` never makes two live slots hold the same key |
| `MapData.Remove` | tests/unit-global/es.map.js:98-119 | `delete` keeps the list length (tombstone) and keeps keys distinct |
| `MapData.Wipe` | tests/unit-global/es.map.js:71-89 | `clear` keeps the list length and tombstones every slot |
| `MapData.PutNew` | tests/unit-global/es.map.js:234-241 | `set` of an absent key appends one slot, after all others |
| `MapData.RemoveAt` | tests/unit-global/es.map.js:328-330 | `delete` of a present key tombstones exactly its slot |
| `MapData.ListedIffHeld` | tests/unit-global/es.map.js:209-224 | a key is listed by `keys()` exactly when a live slot holds it (`has`) |
| `MapData.LookupAfterPut` | tests/unit-global/es.map.js:242-256 | after `set(k, v)`, `get(k)` is `v` and every other key reads as before |
| `MapData.KeysAfterPut` | tests/unit-global/es.map.js:234-256 | `set` on a present key keeps the key order and the size; on a new key it appends the pair and the size grows by one |
| `MapData.LookupAfterRemove` | tests/unit-global/es.map.js:98-119 | after `delete(k)`, `get(k)` is undefined and every other key reads as before |
| `MapData.KeysAfterRemove` | tests/unit-global/es.map.js:98-119 | `delete` removes exactly that key from the key order and shrinks the size by one exactly when it was present |
| `MapData.WipeListsNothing` | tests/unit-global/es.map.js:71-81 | after `clear` nothing is listed, so the size is 0 |
| `MapData.WipeForgets` | tests/unit-global/es.map.js:78-81 | after `clear` no key can be read |
| `MapData.LookupListed` | tests/unit-global/es.map.js:409-432 | `get(k)` is `v` exactly when `entries()` lists the pair `(k, v)` |
| `MapData.ListedPairHeld` | tests/unit-global/es.map.js:409-432 | a listed pair comes from a live slot holding its key |
| `MapData.Apply` | tests/unit-global/es.map.js:156-164 | a callback's `set`/`delete`/`clear` adds at most one slot and keeps keys distinct |
| `MapData.ApplyAll` | tests/unit-global/es.map.js:156-164 | a callback's commands add at most one slot each and keep keys distinct |
| `MapData.WalkUntouched` | tests/unit-global/es.map.js:128-149 | `forEach` with a callback that changes nothing visits exactly the live entries in insertion order |
| `MapData.NextLive` | tests/unit-global/es.map.js:315-337 | the next live slot at or after the cursor, with only tombstones skipped |
| `MapData.DrainedIsEntries` | tests/unit-global/es.map.js:345-368 | an iterator over an unchanged map yields the live entries in insertion order, then is done |
| `MapData.PutAllSnoc` | tests/unit-global/es.map.js:22-23 | building a map from pairs and one more pair is `set` of that pair on the map built from the others |
| `MapData.PutAllLastWins` | tests/unit-global/es.map.js:22-23 | after `new Map(iterable)` a key reads the value of the last pair carrying it |
| `MapData.PutAllHeld` | tests/unit-global/es.map.js:22-23 | after `new Map(iterable)` exactly the keys of the pairs are held |
| `MapObjects.Project` | tests/unit-global/es.map.js:345-433 | `keys()` yields the key, `values()` the value, `entries()` the pair `[key, value]` |
| `MapObjects.OrderedMap.constructor` | tests/unit-global/es.map.js:71-73 | a new map is empty with size 0 |
| `MapObjects.OrderedMap.FromPairs` | tests/unit-global/es.map.js:22-23 | `new Map(iterable)` is an empty map followed by `set` of every pair in order |
| `MapObjects.OrderedMap.Locate` | tests/unit-global/es.map.js:185-200 | the linear search returns the first live slot holding the key, or the length |
| `MapObjects.OrderedMap.Get` | tests/unit-global/es.map.js:185-200 | `get` returns the stored value, and undefined exactly for keys not stored |
| `MapObjects.OrderedMap.Has` | tests/unit-global/es.map.js:209-224 | `has` is true exactly for the stored keys |
| `MapObjects.OrderedMap.Set` | tests/unit-global/es.map.js:234-256 | `set` overwrites or appends, returns the map itself, and grows the size by one exactly for a new key |
| `MapObjects.OrderedMap.Delete` | tests/unit-global/es.map.js:98-119 | `delete` answers whether the key was present, tombstones its slot and shrinks the size by one exactly then |
| `MapObjects.OrderedMap.Clear` | tests/unit-global/es.map.js:71-89 | `clear` tombstones every slot and sets the size to 0 |
| `MapObjects.OrderedMap.Run` | tests/unit-global/es.map.js:158-163 | the callback's own calls change the map as the commands say, in order |
| `MapObjects.OrderedMap.ForEach` | tests/unit-global/es.map.js:150-173 | `forEach` passes the entries the specification walk visits, reading the list afresh after each callback, and leaves the map as the walk does |
| `MapObjects.OrderedMap.Keys` | tests/unit-global/es.map.js:345-349 | `keys()` is a fresh key iterator at the start of this map |
| `MapObjects.OrderedMap.Values` | tests/unit-global/es.map.js:377-381 | `values()` is a fresh value iterator at the start of this map |
| `MapObjects.OrderedMap.Entries` | tests/unit-global/es.map.js:409-413 | `entries()`, also `@@iterator`, is a fresh pair iterator at the start of this map |
| `MapObjects.MapIterator.constructor` | tests/unit-global/es.map.js:322 | an iterator starts at slot 0, not done |
| `MapObjects.MapIterator.Next` | tests/unit-global/es.map.js:315-337 | `next()` yields the next live entry from the cursor in the list as it is now; once done it stays done |
| `MapObjects.MapIterator.Drain` | tests/unit-global/es.map.js:349-368 | calling `next()` until done yields the live entries from the cursor on, projected by the iterator's kind (all the map's entries in insertion order for a fresh iterator), and leaves the iterator done |
| `MapScenarios.LiveKeysIterator` | tests/unit-global/es.map.js:315-337 | the keys iterator yields `a`, `d`, `e` around the deletions and insertion, reports done, and stays done after `f` is set |
| `MapScenarios.InitFromIterable` | tests/unit-global/es.map.js:22 | `new Map` from three pairs with distinct keys has size 3 |
| `MapScenarios.DeleteAheadWalk` | tests/unit-global/es.map.js:150-165 | the walk visits `0`, `1`, `2`, skips the deleted `3` and reaches the appended `4` |
| `MapScenarios.ForEachDeletesAhead` | tests/unit-global/es.map.js:150-165 | `forEach` passes the keys `0`, `1`, `2`, `4` |
| `MapScenarios.ForEachDeletesCurrent` | tests/unit-global/es.map.js:166-173 | a callback that deletes the entry it is given is called once, with value 1, and leaves size 0 |
| `MapScenarios.SetOverwrites` | tests/unit-global/es.map.js:185-200 | four `set`s on three keys give size 3, `get(2)` is the last value 5, `get(4)` is undefined |
| `MapScenarios.DeleteAnswers` | tests/unit-global/es.map.js:106-114 | `delete` of an absent key answers false and keeps size 3; of a present key, true and size 2 |
| `MapScenarios.ClearForgets` | tests/unit-global/es.map.js:74-81 | after `clear` the size is 0 and neither former key is present |
| `MapScenarios.EntriesInOrder` | tests/unit-global/es.map.js:409-432 | `entries()` yields `[a,q]`, `[s,w]`, `[d,e]` in insertion order, then done |

## Left out

- The real registry of core-js-compat is left out. Modules, requirements, native versions and entry points are a parameter. The concrete module lists of the test scenarios, which depend on that data, are not reproduced. `CompatToy` only uses the require lists of two entry points.
- Target normalisation is left out. This covers browserslist queries (`'firefox 27'`), the `esmodules` preset, scalar targets and version strings. Targets are an already-normalised map from engine to a major.minor version.
- The engine maps carry the requested version as a value; rendering it as a string (`'27'`) is left out.
- A module whose support entry is version 0.0 is never needed on that engine; this stands for the "always native" marker.
- An empty targets map means "no targets", as when `targets` is omitted.
- Regular expressions are opaque predicates on names; their syntax and matching are not modelled.
- A string that names neither an entry point nor a module selects nothing. The error the real resolver may raise for it is not modelled.
- The entry wrappers themselves are not modelled: `entryUnbind` in `es/iterator/flat-map.js` and `WeakMap.from` through `path` in `full/weak-map/from.js`. Only their require lists are used.
- `getSetRecord` is left out: the coercion of `size`, and its checks that `has` and `keys` are callable. The set record is given as a size, a membership predicate and the finite sequence its keys iterator produces.
- `SetIsDisjointFrom.IsDisjointFrom` ties its answer to set disjointness only for a faithful record, one whose `has` agrees with its keys. For other set-like objects it states what each branch computes.
- `SetIsDisjointFrom.IsDisjointFrom`: a user-defined set-like `other` is pure and total here. Exceptions thrown by its `has`, `keys` or `next` are not modelled. Neither is its `has` adding elements to the receiver while the receiver is being scanned, which the ECMAScript algorithm allows.
- Closing `other`'s keys iterator when the scan exits early is not modelled.
- The JavaScript object-model checks of the `Map` tests are left out: arity, names, non-enumerability, descriptors, `@@toStringTag`, subclassing, `return()` on the constructor's iterable, and frozen or ArrayBuffer keys.
- NaN and -0 as keys are left out. Keys are an abstract type with equality, which stands for SameValueZero after -0 is normalised to +0.
- `MapObjects.OrderedMap.ForEach`: the callback is a script, where the i-th call performs the i-th list of `set`/`delete`/`clear` commands. A callback that throws, or that keeps adding entries for ever, is not modelled. Calling `forEach` on a non-Map is excluded by typing.
- `MapObjects.OrderedMap.Get`: the model answers `None` for an absent key and `Some(v)` for a stored one, so a stored `undefined` (say `Some(None)` over optional values) stays distinct from an absent key; JavaScript's `get` collapses the two into `undefined`, and that collapse is not modelled.
- Console output of the compat test (`echo`) and the QUnit test runner are left out.
