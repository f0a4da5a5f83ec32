/**
 * A `Map` object and its iterators (section 24.1 of ECMAScript 2025). The map
 * keeps its entry list and a live count, changing both in place; an iterator
 * keeps a cursor into the same list, so it sees what is appended after it was
 * created and skips what is deleted before it gets there.
 */
module MapObjects {
  import opened Wrappers
  import MapData

  /** What an iterator yields: the key, the value, or both (`keys`, `values`, `entries`). */
  datatype Kind = KeyKind | ValueKind | KeyValueKind

  datatype Item<K, V> = Key(key: K) | Value(value: V) | Pair(key: K, value: V)

  /** One result of `next()`: `{value, done: false}` or `{value: undefined, done: true}`. */
  datatype Step<K, V> = Yield(item: Item<K, V>) | Done

  function Project<K, V>(kind: Kind, k: K, v: V): (item: Item<K, V>)
    ensures kind == KeyKind <==> item.Key?
    ensures kind == ValueKind <==> item.Value?
    ensures item.Key? ==> item.key == k
    ensures item.Value? ==> item.value == v
    ensures item.Pair? ==> item == Pair(k, v)
  {
    match kind
    case KeyKind => Key(k)
    case ValueKind => Value(v)
    case KeyValueKind => Pair(k, v)
  }

  /** What an iterator of `kind` yields for the pairs `es`, in order. */
  function Projected<K, V>(kind: Kind, es: seq<(K, V)>): (items: seq<Item<K, V>>)
    ensures |items| == |es|
    ensures forall j :: 0 <= j < |es| ==> items[j] == Project(kind, es[j].0, es[j].1)
  {
    if es == [] then [] else [Project(kind, es[0].0, es[0].1)] + Projected(kind, es[1..])
  }

  lemma {:induction false} ProjectedConcat<K, V>(kind: Kind, a: seq<(K, V)>, b: seq<(K, V)>)
    ensures Projected(kind, a + b) == Projected(kind, a) + Projected(kind, b)
  {
    assert |Projected(kind, a + b)| == |Projected(kind, a) + Projected(kind, b)|;
  }

  class OrderedMap<K(==), V> {
    /** The entry list, tombstones included. */
    var data: seq<MapData.Slot<K, V>>
    /** The `size` accessor's answer. */
    var size: nat

    ghost predicate Valid()
      reads this
    {
      MapData.DistinctKeys(data) && size == |MapData.Entries(data)|
    }

    /** `new Map()`. */
    constructor ()
      ensures Valid() && data == [] && size == 0
    {
      data := [];
      size := 0;
    }

    /** `new Map(iterable)`: an empty map, then `set` for each pair in order. */
    constructor FromPairs(init: seq<(K, V)>)
      ensures Valid() && data == MapData.PutAll([], init)
    {
      data := [];
      size := 0;
      new;
      var i := 0;
      while i < |init|
        invariant i <= |init|
        invariant Valid()
        invariant MapData.PutAll(data, init[i..]) == MapData.PutAll([], init)
      {
        assert init[i..][1..] == init[i + 1..];
        var _ := Set(init[i].0, init[i].1);
        i := i + 1;
      }
    }

    /** The linear search for `key`'s slot. */
    method Locate(key: K) returns (i: nat)
      ensures i == MapData.Find(data, key)
    {
      i := 0;
      while i < |data| && !(data[i].Entry? && data[i].key == key)
        invariant i <= |data|
        invariant forall j :: 0 <= j < i ==> !(data[j].Entry? && data[j].key == key)
      {
        i := i + 1;
      }
      MapData.FindIs(data, key, i);
    }

    /** `get`: the value last set for `key`, or `undefined` (`None`) when it is absent. */
    method Get(key: K) returns (v: Option<V>)
      ensures v == MapData.Lookup(data, key)
      ensures v.Some? <==> key in MapData.Keys(data)
    {
      var i := Locate(key);
      v := if i < |data| then Some(data[i].value) else None;
      MapData.ListedIffHeld(data, key);
    }

    /** `has`: whether `key` is currently stored. */
    method Has(key: K) returns (b: bool)
      ensures b <==> key in MapData.Keys(data)
    {
      var i := Locate(key);
      b := i < |data|;
      MapData.ListedIffHeld(data, key);
    }

    /** `set`: overwrite in place or append; returns the map itself. */
    method Set(key: K, value: V) returns (self: OrderedMap<K, V>)
      requires Valid()
      modifies this
      ensures Valid() && self == this
      ensures data == MapData.Put(old(data), key, value)
      ensures size == old(size) + (if key in MapData.Keys(old(data)) then 0 else 1)
    {
      MapData.KeysAfterPut(data, key, value);
      MapData.ListedIffHeld(data, key);
      var i := Locate(key);
      if i < |data| {
        data := data[i := MapData.Entry(key, value)];
      } else {
        data := data + [MapData.Entry(key, value)];
        size := size + 1;
      }
      self := this;
    }

    /** `delete`: tombstone `key`'s slot; answers whether there was one. */
    method Delete(key: K) returns (removed: bool)
      requires Valid()
      modifies this
      ensures Valid()
      ensures removed <==> key in MapData.Keys(old(data))
      ensures data == MapData.Remove(old(data), key)
      ensures size == old(size) - (if removed then 1 else 0)
    {
      MapData.KeysAfterRemove(data, key);
      MapData.ListedIffHeld(data, key);
      var i := Locate(key);
      removed := i < |data|;
      if removed {
        data := data[i := MapData.Empty];
        size := size - 1;
      }
    }

    /** `clear`: every slot becomes a tombstone, one at a time. */
    method Clear()
      requires Valid()
      modifies this
      ensures Valid() && size == 0
      ensures data == MapData.Wipe(old(data))
    {
      var i := 0;
      while i < |data|
        invariant i <= |data| == |old(data)|
        invariant forall j :: 0 <= j < i ==> data[j].Empty?
        invariant forall j :: i <= j < |data| ==> data[j] == old(data)[j]
      {
        data := data[i := MapData.Empty];
        i := i + 1;
      }
      assert data == MapData.Wipe(old(data));
      MapData.WipeListsNothing(old(data));
      size := 0;
    }

    /** The callback's own calls of `set`, `delete` and `clear`, in order. */
    method Run(cmds: seq<MapData.Command<K, V>>)
      requires Valid()
      modifies this
      ensures Valid()
      ensures data == MapData.ApplyAll(old(data), cmds)
    {
      var j := 0;
      while j < |cmds|
        invariant j <= |cmds|
        invariant Valid()
        invariant MapData.ApplyAll(data, cmds[j..]) == MapData.ApplyAll(old(data), cmds)
      {
        assert cmds[j..][1..] == cmds[j + 1..];
        match cmds[j] {
          case SetCmd(k, v) =>
            var _ := Set(k, v);
          case DeleteCmd(k) =>
            var _ := Delete(k);
          case ClearCmd =>
            Clear();
        }
        j := j + 1;
      }
    }

    /**
     * `forEach`: walks the entry list by index, passing each live entry to the
     * callback, whose i-th call performs `script[i]`. The list is read afresh at
     * every step, so entries deleted before the walk reaches them are skipped and
     * entries appended meanwhile are visited. Answers the pairs passed, in order.
     */
    method ForEach(script: seq<seq<MapData.Command<K, V>>>) returns (visited: seq<(K, V)>)
      requires Valid()
      modifies this
      ensures Valid()
      ensures visited == MapData.Walk(old(data), 0, script).0
      ensures data == MapData.Walk(old(data), 0, script).1
    {
      var c := 0;
      var rest := script;
      visited := [];
      while c < |data|
        invariant Valid()
        invariant c <= |data|
        invariant visited + MapData.Walk(data, c, rest).0 == MapData.Walk(old(data), 0, script).0
        invariant MapData.Walk(data, c, rest).1 == MapData.Walk(old(data), 0, script).1
        decreases |data| - c + MapData.Budget(rest)
      {
        if data[c].Entry? {
          var e := (data[c].key, data[c].value);
          ghost var before := data;
          Run(MapData.NextStep(rest));
          assert MapData.Walk(before, c, rest).0 == [e] + MapData.Walk(data, c + 1, MapData.Later(rest)).0;
          assert visited + [e] + MapData.Walk(data, c + 1, MapData.Later(rest)).0
              == visited + MapData.Walk(before, c, rest).0;
          visited := visited + [e];
          rest := MapData.Later(rest);
        }
        c := c + 1;
      }
      assert visited + [] == visited;
    }

    /** `keys()`: a fresh iterator at the start of this map's list. */
    method Keys() returns (it: MapIterator<K, V>)
      ensures fresh(it) && it.source == this && it.kind == KeyKind
      ensures it.cursor == 0 && !it.finished
    {
      it := new MapIterator(this, KeyKind);
    }

    /** `values()`. */
    method Values() returns (it: MapIterator<K, V>)
      ensures fresh(it) && it.source == this && it.kind == ValueKind
      ensures it.cursor == 0 && !it.finished
    {
      it := new MapIterator(this, ValueKind);
    }

    /** `entries()`, which is also `Map.prototype[@@iterator]`. */
    method Entries() returns (it: MapIterator<K, V>)
      ensures fresh(it) && it.source == this && it.kind == KeyValueKind
      ensures it.cursor == 0 && !it.finished
    {
      it := new MapIterator(this, KeyValueKind);
    }
  }

  /**
   * A Map Iterator: a cursor into its map's entry list. It reads the list as it is
   * at each `next()`; once it has answered `done` it stays done, even if entries
   * are added later.
   */
  class MapIterator<K(==), V> {
    const source: OrderedMap<K, V>
    const kind: Kind
    var cursor: nat
    var finished: bool

    constructor (source: OrderedMap<K, V>, kind: Kind)
      ensures this.source == source && this.kind == kind
      ensures cursor == 0 && !finished
    {
      this.source := source;
      this.kind := kind;
      cursor := 0;
      finished := false;
    }

    /** `next()`: skip tombstones from the cursor on, yield the next live entry or finish. */
    method Next() returns (s: Step<K, V>)
      modifies this
      ensures old(finished) ==> s == Done && finished && cursor == old(cursor)
      ensures !old(finished) && MapData.NextLive(source.data, old(cursor)) < |source.data| ==>
        var i := MapData.NextLive(source.data, old(cursor));
        s == Yield(Project(kind, source.data[i].key, source.data[i].value)) && cursor == i + 1 && !finished
      ensures !old(finished) && MapData.NextLive(source.data, old(cursor)) >= |source.data| ==>
        s == Done && finished && cursor == old(cursor)
    {
      if finished {
        return Done;
      }
      var d := source.data;
      var i := cursor;
      while i < |d| && d[i].Empty?
        invariant cursor <= i
        invariant MapData.NextLive(d, i) == MapData.NextLive(d, cursor)
        decreases |d| - i
      {
        i := i + 1;
      }
      if i < |d| {
        s := Yield(Project(kind, d[i].key, d[i].value));
        cursor := i + 1;
      } else {
        s := Done;
        finished := true;
      }
    }

    /**
     * Calls `next()` until it answers done, collecting what it yields: while the
     * map is left alone, that is the live entries from the cursor on, in
     * insertion order, and the iterator ends finished.
     */
    method Drain() returns (items: seq<Item<K, V>>)
      modifies this
      ensures finished
      ensures old(finished) ==> items == []
      ensures !old(finished) ==> items == Projected(kind, MapData.Drained(source.data, old(cursor)))
      ensures !old(finished) && old(cursor) == 0 ==> items == Projected(kind, MapData.Entries(source.data))
    {
      ghost var d := source.data;
      ghost var start := cursor;
      items := [];
      while !finished
        invariant source.data == d
        invariant !finished ==> items + Projected(kind, MapData.Drained(d, cursor)) == Projected(kind, MapData.Drained(d, start))
        invariant finished ==> items == (if old(finished) then [] else Projected(kind, MapData.Drained(d, start)))
        decreases !finished, |d| - cursor
      {
        ghost var c := cursor;
        var s := Next();
        ghost var i := MapData.NextLive(d, c);
        if s.Yield? {
          assert MapData.Drained(d, c) == [(d[i].key, d[i].value)] + MapData.Drained(d, i + 1);
          ProjectedConcat(kind, [(d[i].key, d[i].value)], MapData.Drained(d, i + 1));
          items := items + [s.item];
        } else {
          assert MapData.Drained(d, c) == [];
        }
      }
      if !old(finished) && start == 0 {
        MapData.DrainedIsEntries(d, 0);
        assert d[0..] == d;
      }
    }
  }
}
