/**
 * The entry list behind a `Map` object (section 24.1 of ECMAScript 2025): a list
 * of slots in insertion order. `set` on a new key appends a slot and `set` on a
 * present key overwrites its slot where it stands; `delete` and `clear` turn slots
 * into tombstones rather than removing them, so that an iteration in progress
 * keeps its place in the list.
 */
module MapData {
  import opened Wrappers

  datatype Slot<K, V> = Entry(key: K, value: V) | Empty

  /** No key is held by two live slots. */
  ghost predicate DistinctKeys<K, V>(d: seq<Slot<K, V>>) {
    forall i, j :: 0 <= i < j < |d| && d[i].Entry? && d[j].Entry? ==> d[i].key != d[j].key
  }

  /** The position of the live slot holding `k`, or `|d|` when no slot holds it. */
  function Find<K(==), V>(d: seq<Slot<K, V>>, k: K): (i: nat)
    ensures i <= |d|
    ensures i < |d| ==> (d[i].Entry? && d[i].key == k)
    ensures forall j :: 0 <= j < i ==> !(d[j].Entry? && d[j].key == k)
    decreases |d|
  {
    if d == [] then 0
    else if (d[0].Entry? && d[0].key == k) then 0
    else 1 + Find(d[1..], k)
  }

  /** The index characterised by `Find`'s contract is the one it returns. */
  lemma FindIs<K, V>(d: seq<Slot<K, V>>, k: K, i: nat)
    requires i <= |d|
    requires i < |d| ==> (d[i].Entry? && d[i].key == k)
    requires forall j :: 0 <= j < i ==> !(d[j].Entry? && d[j].key == k)
    ensures Find(d, k) == i
  {
  }

  /** `Map.prototype.get`: the value in `k`'s slot, or nothing (`undefined`). */
  function Lookup<K(==), V>(d: seq<Slot<K, V>>, k: K): Option<V> {
    var i := Find(d, k);
    if i < |d| then Some(d[i].value) else None
  }

  /** `Map.prototype.set`: overwrite `k`'s slot in place, or append a new slot. */
  function Put<K(==), V>(d: seq<Slot<K, V>>, k: K, v: V): (r: seq<Slot<K, V>>)
    ensures DistinctKeys(d) ==> DistinctKeys(r)
  {
    var i := Find(d, k);
    if i < |d| then d[i := Entry(k, v)] else d + [Entry(k, v)]
  }

  /** `Map.prototype.delete`: turn `k`'s slot into a tombstone, if it has one. */
  function Remove<K(==), V>(d: seq<Slot<K, V>>, k: K): (r: seq<Slot<K, V>>)
    ensures |r| == |d|
    ensures DistinctKeys(d) ==> DistinctKeys(r)
  {
    var i := Find(d, k);
    if i < |d| then d[i := Empty] else d
  }

  /** `Map.prototype.clear`: every slot becomes a tombstone; the list keeps its length. */
  function Wipe<K, V>(d: seq<Slot<K, V>>): (r: seq<Slot<K, V>>)
    ensures |r| == |d|
    ensures forall i :: 0 <= i < |r| ==> r[i].Empty?
  {
    seq(|d|, _ => Empty)
  }

  /** The pair a slot contributes to an iteration: one for a live slot, none for a tombstone. */
  function SlotEntries<K, V>(s: Slot<K, V>): seq<(K, V)> {
    if s.Entry? then [(s.key, s.value)] else []
  }

  /** The live entries in insertion order: what `entries()` yields on an untouched map. */
  function Entries<K, V>(d: seq<Slot<K, V>>): seq<(K, V)>
    decreases |d|
  {
    if d == [] then [] else SlotEntries(d[0]) + Entries(d[1..])
  }

  function KeysOf<K, V>(es: seq<(K, V)>): seq<K>
    decreases |es|
  {
    if es == [] then [] else [es[0].0] + KeysOf(es[1..])
  }

  /** The live keys in insertion order. */
  function Keys<K, V>(d: seq<Slot<K, V>>): seq<K> {
    KeysOf(Entries(d))
  }

  /** `ks` with every occurrence of `k` taken out. */
  function Without<K(==)>(ks: seq<K>, k: K): seq<K>
    decreases |ks|
  {
    if ks == [] then [] else (if ks[0] == k then [] else [ks[0]]) + Without(ks[1..], k)
  }

  lemma {:induction false} EntriesConcat<K, V>(a: seq<Slot<K, V>>, b: seq<Slot<K, V>>)
    ensures Entries(a + b) == Entries(a) + Entries(b)
    decreases |a|
  {
    if a != [] {
      assert (a + b)[1..] == a[1..] + b;
      EntriesConcat(a[1..], b);
    } else {
      assert a + b == b;
    }
  }

  lemma {:induction false} KeysOfConcat<K, V>(a: seq<(K, V)>, b: seq<(K, V)>)
    ensures KeysOf(a + b) == KeysOf(a) + KeysOf(b)
    decreases |a|
  {
    if a != [] {
      assert (a + b)[1..] == a[1..] + b;
      KeysOfConcat(a[1..], b);
    } else {
      assert a + b == b;
    }
  }

  lemma {:induction false} WithoutConcat<K>(a: seq<K>, b: seq<K>, k: K)
    ensures Without(a + b, k) == Without(a, k) + Without(b, k)
    decreases |a|
  {
    if a != [] {
      assert (a + b)[1..] == a[1..] + b;
      WithoutConcat(a[1..], b, k);
    } else {
      assert a + b == b;
    }
  }

  lemma {:induction false} WithoutAbsent<K>(ks: seq<K>, k: K)
    requires k !in ks
    ensures Without(ks, k) == ks
    decreases |ks|
  {
    if ks != [] {
      WithoutAbsent(ks[1..], k);
    }
  }

  lemma EntriesSingle<K, V>(s: Slot<K, V>)
    ensures Entries([s]) == SlotEntries(s)
  {
    assert [s][1..] == [];
  }

  /** The live entries of `d` split around slot `i`. */
  lemma {:induction false} EntriesAround<K, V>(d: seq<Slot<K, V>>, i: nat)
    requires i < |d|
    ensures Entries(d) == Entries(d[..i]) + SlotEntries(d[i]) + Entries(d[i + 1..])
    decreases i
  {
    if i == 0 {
      assert d[..0] == [];
      assert d[1..] == d[i + 1..];
    } else {
      var t := d[1..];
      EntriesAround(t, i - 1);
      assert t[i - 1] == d[i];
      assert t[i..] == d[i + 1..];
      assert d[..i][1..] == t[..i - 1];
      assert d[..i][0] == d[0];
    }
  }

  /** The keys of `d` split around slot `i`. */
  lemma KeysAround<K, V>(d: seq<Slot<K, V>>, i: nat)
    requires i < |d|
    ensures Keys(d) == Keys(d[..i]) + KeysOf(SlotEntries(d[i])) + Keys(d[i + 1..])
  {
    EntriesAround(d, i);
    KeysOfConcat(Entries(d[..i]) + SlotEntries(d[i]), Entries(d[i + 1..]));
    KeysOfConcat(Entries(d[..i]), SlotEntries(d[i]));
  }

  /** A key is listed by `keys()` exactly when some live slot holds it. */
  lemma {:induction false} ListedIffHeld<K, V>(d: seq<Slot<K, V>>, k: K)
    ensures k in Keys(d) <==> Find(d, k) < |d|
    decreases |d|
  {
    if d != [] {
      ListedIffHeld(d[1..], k);
      KeysOfConcat(SlotEntries(d[0]), Entries(d[1..]));
      if !(d[0].Entry? && d[0].key == k) && Find(d[1..], k) < |d| - 1 {
        FindIs(d, k, Find(d[1..], k) + 1);
      }
    }
  }

  /** `set` of a key no slot holds appends a slot for it. */
  lemma PutNew<K, V>(d: seq<Slot<K, V>>, k: K, v: V)
    requires forall i :: 0 <= i < |d| ==> !(d[i].Entry? && d[i].key == k)
    ensures Put(d, k, v) == d + [Entry(k, v)]
    ensures k !in Keys(d)
  {
    FindIs(d, k, |d|);
    ListedIffHeld(d, k);
  }

  /** `delete` of the key in slot `i` tombstones that slot. */
  lemma RemoveAt<K, V>(d: seq<Slot<K, V>>, k: K, i: nat)
    requires i < |d| && d[i].Entry? && d[i].key == k
    requires forall j :: 0 <= j < i ==> !(d[j].Entry? && d[j].key == k)
    ensures Remove(d, k) == d[i := Empty]
    ensures k in Keys(d)
  {
    FindIs(d, k, i);
    ListedIffHeld(d, k);
  }

  /**
   * `get` after `set`: the key just set reads back the value just written, and
   * every other key reads what it read before.
   */
  lemma LookupAfterPut<K, V>(d: seq<Slot<K, V>>, k: K, v: V, q: K)
    ensures Lookup(Put(d, k, v), q) == if q == k then Some(v) else Lookup(d, q)
  {
    var i := Find(d, k);
    var r := Put(d, k, v);
    if q == k {
      FindIs(r, k, i);
    } else {
      var j := Find(d, q);
      if j < |d| {
        FindIs(r, q, j);
      } else {
        FindIs(r, q, |r|);
      }
    }
  }

  /**
   * `set` and the iteration order: overwriting a present key keeps every key in
   * its place; a new key is appended after all others. The live count grows by
   * one exactly when the key was absent.
   */
  lemma KeysAfterPut<K, V>(d: seq<Slot<K, V>>, k: K, v: V)
    ensures k in Keys(d) ==> Keys(Put(d, k, v)) == Keys(d)
    ensures k !in Keys(d) ==> Entries(Put(d, k, v)) == Entries(d) + [(k, v)]
    ensures |Entries(Put(d, k, v))| == |Entries(d)| + (if k in Keys(d) then 0 else 1)
  {
    ListedIffHeld(d, k);
    var i := Find(d, k);
    var r := Put(d, k, v);
    if i < |d| {
      EntriesAround(d, i);
      EntriesAround(r, i);
      KeysAround(d, i);
      KeysAround(r, i);
      assert r[..i] == d[..i] && r[i + 1..] == d[i + 1..];
    } else {
      EntriesConcat(d, [Entry(k, v)]);
    }
  }

  /** `get` after `delete`: the deleted key reads nothing; other keys are untouched. */
  lemma LookupAfterRemove<K, V>(d: seq<Slot<K, V>>, k: K, q: K)
    requires DistinctKeys(d)
    ensures Lookup(Remove(d, k), q) == if q == k then None else Lookup(d, q)
  {
    var i := Find(d, k);
    var r := Remove(d, k);
    if i < |d| {
      if q == k {
        FindIs(r, k, |r|);
      } else {
        FindIs(r, q, Find(d, q));
      }
    }
  }

  /** No slot after the one `Find` returns holds its key again. */
  lemma NotHeldAfter<K, V>(d: seq<Slot<K, V>>, k: K)
    requires DistinctKeys(d) && Find(d, k) < |d|
    ensures k !in Keys(d[Find(d, k) + 1..])
  {
    var i := Find(d, k);
    var after := d[i + 1..];
    forall j | 0 <= j < |after| ensures !(after[j].Entry? && after[j].key == k) {
      assert after[j] == d[i + 1 + j];
    }
    FindIs(after, k, |after|);
    ListedIffHeld(after, k);
  }

  /** No slot before the one `Find` returns holds its key. */
  lemma NotHeldBefore<K, V>(d: seq<Slot<K, V>>, k: K)
    requires Find(d, k) <= |d|
    ensures k !in Keys(d[..Find(d, k)])
  {
    var i := Find(d, k);
    FindIs(d[..i], k, i);
    ListedIffHeld(d[..i], k);
  }

  /** The keys of `d` split around the live slot `i`. */
  lemma KeysAroundLive<K, V>(d: seq<Slot<K, V>>, i: nat)
    requires i < |d| && d[i].Entry?
    ensures Keys(d) == Keys(d[..i]) + [d[i].key] + Keys(d[i + 1..])
  {
    KeysAround(d, i);
    KeysOfSingle(d[i]);
  }

  lemma KeysOfSingle<K, V>(s: Slot<K, V>)
    requires s.Entry?
    ensures KeysOf(SlotEntries(s)) == [s.key]
  {
    assert SlotEntries(s)[1..] == [];
  }

  /**
   * `delete` and the iteration order: the deleted key drops out and the others
   * keep their order; the live count shrinks by one exactly when the key was present.
   */
  lemma KeysAfterRemove<K, V>(d: seq<Slot<K, V>>, k: K)
    requires DistinctKeys(d)
    ensures Keys(Remove(d, k)) == Without(Keys(d), k)
    ensures |Entries(Remove(d, k))| == |Entries(d)| - (if k in Keys(d) then 1 else 0)
  {
    ListedIffHeld(d, k);
    var i := Find(d, k);
    if i < |d| {
      assert Remove(d, k) == d[i := Empty];
      assert Keys(Remove(d, k)) == Without(Keys(d), k) by {
        KeysAroundLive(d, i);
        NotHeldBefore(d, k);
        NotHeldAfter(d, k);
        WithoutOne(Keys(d[..i]), Keys(d[i + 1..]), k);
        RemovedKeys(d, i);
      }
      RemovedCount(d, i);
    } else {
      WithoutAbsent(Keys(d), k);
    }
  }

  /** Dropping a key that occurs once leaves what is around it. */
  lemma WithoutOne<K>(before: seq<K>, after: seq<K>, k: K)
    requires k !in before && k !in after
    ensures Without(before + [k] + after, k) == before + after
  {
    WithoutConcat(before + [k], after, k);
    WithoutConcat(before, [k], k);
    WithoutAbsent(before, k);
    WithoutAbsent(after, k);
    assert Without([k], k) == [] by {
      assert [k][1..] == [];
    }
  }

  /** Tombstoning slot `i` leaves the keys on either side of it. */
  lemma RemovedKeys<K, V>(d: seq<Slot<K, V>>, i: nat)
    requires i < |d|
    ensures Keys(d[i := Empty]) == Keys(d[..i]) + Keys(d[i + 1..])
  {
    var r := d[i := Empty];
    assert r[..i] == d[..i];
    assert r[i + 1..] == d[i + 1..];
    KeysAround(r, i);
    assert KeysOf(SlotEntries(r[i])) == [];
  }

  /** Tombstoning a live slot `i` lowers the live count by one. */
  lemma RemovedCount<K, V>(d: seq<Slot<K, V>>, i: nat)
    requires i < |d| && d[i].Entry?
    ensures |Entries(d[i := Empty])| == |Entries(d)| - 1
  {
    var r := d[i := Empty];
    assert r[..i] == d[..i];
    assert r[i + 1..] == d[i + 1..];
    EntriesAround(d, i);
    EntriesAround(r, i);
    assert |SlotEntries(d[i])| == 1 && SlotEntries(r[i]) == [];
  }

  /** After `clear` nothing is listed. */
  lemma {:induction false} WipeListsNothing<K, V>(d: seq<Slot<K, V>>)
    ensures Entries(Wipe(d)) == []
    decreases |d|
  {
    if d != [] {
      WipeListsNothing(d[1..]);
      assert Wipe(d)[1..] == Wipe(d[1..]);
    }
  }

  /** After `clear` no key can be looked up. */
  lemma WipeForgets<K, V>(d: seq<Slot<K, V>>, q: K)
    ensures Lookup(Wipe(d), q) == None
  {
    FindIs(Wipe(d), q, |d|);
  }

  /**
   * `get` agrees with `entries()`: on a list whose keys are distinct, `k` reads
   * `v` exactly when the pair `(k, v)` is listed.
   */
  lemma {:induction false} LookupListed<K, V>(d: seq<Slot<K, V>>, k: K, v: V)
    requires DistinctKeys(d)
    ensures Lookup(d, k) == Some(v) <==> (k, v) in Entries(d)
    decreases |d|
  {
    if d != [] {
      LookupListed(d[1..], k, v);
      if !(d[0].Entry? && d[0].key == k) {
        FindIs(d, k, Find(d[1..], k) + 1);
      }
    }
  }

  /** A listed pair comes from a live slot that holds its key. */
  lemma {:induction false} ListedPairHeld<K, V>(d: seq<Slot<K, V>>, k: K, v: V)
    requires (k, v) in Entries(d)
    ensures Find(d, k) < |d|
    decreases |d|
  {
    if !(d[0].Entry? && d[0].key == k) {
      ListedPairHeld(d[1..], k, v);
      FindIs(d, k, Find(d[1..], k) + 1);
    }
  }

  // ----- mutations a `forEach` callback performs -----

  /** What one call of the `forEach` callback does to the map. */
  datatype Command<K, V> = SetCmd(key: K, value: V) | DeleteCmd(key: K) | ClearCmd

  function Apply<K(==), V>(d: seq<Slot<K, V>>, c: Command<K, V>): (r: seq<Slot<K, V>>)
    ensures |d| <= |r| <= |d| + 1
    ensures DistinctKeys(d) ==> DistinctKeys(r)
  {
    match c
    case SetCmd(k, v) => Put(d, k, v)
    case DeleteCmd(k) => Remove(d, k)
    case ClearCmd => Wipe(d)
  }

  /** The commands of one callback, applied in order. */
  function ApplyAll<K(==), V>(d: seq<Slot<K, V>>, cs: seq<Command<K, V>>): (r: seq<Slot<K, V>>)
    ensures |d| <= |r| <= |d| + |cs|
    ensures DistinctKeys(d) ==> DistinctKeys(r)
    decreases |cs|
  {
    if cs == [] then d else ApplyAll(Apply(d, cs[0]), cs[1..])
  }

  /** The most slots the remaining callbacks can append. */
  function Budget<K, V>(script: seq<seq<Command<K, V>>>): nat
    decreases |script|
  {
    if script == [] then 0 else |script[0]| + Budget(script[1..])
  }

  /** The commands the next callback performs: none once the script is used up. */
  function NextStep<K, V>(script: seq<seq<Command<K, V>>>): seq<Command<K, V>> {
    if script == [] then [] else script[0]
  }

  function Later<K, V>(script: seq<seq<Command<K, V>>>): seq<seq<Command<K, V>>> {
    if script == [] then [] else script[1..]
  }

  /**
   * `forEach` from slot `c` on: each live slot is passed to the callback, which then
   * performs the next step of `script`; tombstones are skipped, and the walk reads
   * the list as the callbacks leave it, so slots appended meanwhile are reached.
   * Gives the pairs passed to the callback and the list at the end.
   */
  function Walk<K(==), V>(d: seq<Slot<K, V>>, c: nat, script: seq<seq<Command<K, V>>>): (seq<(K, V)>, seq<Slot<K, V>>)
    decreases |d| - c + Budget(script)
  {
    if c >= |d| then ([], d)
    else if d[c].Empty? then Walk(d, c + 1, script)
    else
      var next := ApplyAll(d, NextStep(script));
      var rest := Walk(next, c + 1, Later(script));
      ([(d[c].key, d[c].value)] + rest.0, rest.1)
  }

  /** A callback that changes nothing sees exactly the live entries, in insertion order. */
  lemma {:induction false} WalkUntouched<K, V>(d: seq<Slot<K, V>>, c: nat)
    requires c <= |d|
    ensures Walk(d, c, []) == (Entries(d[c..]), d)
    decreases |d| - c
  {
    if c == |d| {
      assert d[c..] == [];
    } else {
      WalkUntouched(d, c + 1);
      assert d[c..] == [d[c]] + d[c + 1..];
      EntriesConcat([d[c]], d[c + 1..]);
      EntriesSingle(d[c]);
      if d[c].Entry? {
        assert ApplyAll(d, NextStep<K, V>([])) == d;
        assert Later<K, V>([]) == [];
        assert Walk(d, c, []) == ([(d[c].key, d[c].value)] + Walk(d, c + 1, []).0, Walk(d, c + 1, []).1);
      } else {
        assert Entries(d[c..]) == Entries(d[c + 1..]);
      }
    }
  }

  /** `new Map(iterable)`: an empty list, then `set` for every pair in turn. */
  function PutAll<K(==), V>(d: seq<Slot<K, V>>, ps: seq<(K, V)>): seq<Slot<K, V>>
    decreases |ps|
  {
    if ps == [] then d else PutAll(Put(d, ps[0].0, ps[0].1), ps[1..])
  }

  /** Building from `ps` and then one more pair is `set` of that pair on the result. */
  lemma {:induction false} PutAllSnoc<K, V>(d: seq<Slot<K, V>>, ps: seq<(K, V)>, k: K, v: V)
    ensures PutAll(d, ps + [(k, v)]) == Put(PutAll(d, ps), k, v)
    decreases |ps|
  {
    if ps == [] {
      assert ps + [(k, v)] == [(k, v)];
      assert [(k, v)][1..] == [];
    } else {
      assert (ps + [(k, v)])[0] == ps[0];
      assert (ps + [(k, v)])[1..] == ps[1..] + [(k, v)];
      PutAllSnoc(Put(d, ps[0].0, ps[0].1), ps[1..], k, v);
    }
  }

  /** After `new Map(iterable)`, a key reads the value of the last pair that carries it. */
  lemma PutAllLastWins<K, V>(d: seq<Slot<K, V>>, ps: seq<(K, V)>, k: K, v: V)
    ensures Lookup(PutAll(d, ps + [(k, v)]), k) == Some(v)
  {
    PutAllSnoc(d, ps, k, v);
    LookupAfterPut(PutAll(d, ps), k, v, k);
  }

  /** After `new Map(iterable)`, exactly the keys of the pairs (and those held before) are held. */
  lemma {:induction false} PutAllHeld<K, V>(d: seq<Slot<K, V>>, ps: seq<(K, V)>, q: K)
    ensures Lookup(PutAll(d, ps), q).Some? <==> Lookup(d, q).Some? || exists i :: 0 <= i < |ps| && ps[i].0 == q
    decreases |ps|
  {
    if ps != [] {
      var d' := Put(d, ps[0].0, ps[0].1);
      PutAllHeld(d', ps[1..], q);
      LookupAfterPut(d, ps[0].0, ps[0].1, q);
      if exists i :: 0 <= i < |ps[1..]| && ps[1..][i].0 == q {
        var i :| 0 <= i < |ps[1..]| && ps[1..][i].0 == q;
        assert ps[i + 1].0 == q;
      }
      if exists i :: 0 <= i < |ps| && ps[i].0 == q {
        var i :| 0 <= i < |ps| && ps[i].0 == q;
        if i > 0 {
          assert ps[1..][i - 1].0 == q;
        }
      }
    }
  }

  // ----- iteration by cursor -----

  /** The first live slot at or after `c`; `c` itself (or `|d|`) when there is none. */
  function NextLive<K, V>(d: seq<Slot<K, V>>, c: nat): (i: nat)
    ensures c <= i
    ensures i < |d| ==> d[i].Entry?
    ensures i >= |d| ==> i == c || i == |d|
    ensures forall j :: c <= j < i && j < |d| ==> d[j].Empty?
    decreases |d| - c
  {
    if c >= |d| || d[c].Entry? then c else NextLive(d, c + 1)
  }

  /** What an iterator with cursor `c` yields, step by step, while the list stays as it is. */
  function Drained<K, V>(d: seq<Slot<K, V>>, c: nat): seq<(K, V)>
    decreases |d| - c
  {
    var i := NextLive(d, c);
    if i < |d| then [(d[i].key, d[i].value)] + Drained(d, i + 1) else []
  }

  /** An iterator over an unchanged map yields the live entries in insertion order, then finishes. */
  lemma {:induction false} DrainedIsEntries<K, V>(d: seq<Slot<K, V>>, c: nat)
    requires c <= |d|
    ensures Drained(d, c) == Entries(d[c..])
    decreases |d| - c
  {
    if c == |d| {
      assert d[c..] == [];
    } else {
      DrainedIsEntries(d, c + 1);
      var rest := d[c..];
      assert rest[0] == d[c] && rest[1..] == d[c + 1..];
      assert Entries(rest) == SlotEntries(d[c]) + Entries(d[c + 1..]);
      if d[c].Empty? {
        assert NextLive(d, c) == NextLive(d, c + 1);
        assert SlotEntries(d[c]) == [];
      } else {
        assert NextLive(d, c) == c;
      }
    }
  }
}
