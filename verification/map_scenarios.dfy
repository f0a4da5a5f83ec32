/**
 * Concrete scenarios of the `Map` model, proved on small keys: the live keys iterator, the
 * `forEach` callbacks that delete ahead of and at the walk's position, `set`
 * overwriting, `delete` answers, `clear`, and `entries()` order.
 */
module MapScenarios {
  import opened Wrappers
  import MapData
  import opened MapObjects

  /** A map of `a`, `b`, `c`, `d`, set in that order. */
  method FourLetters() returns (m: OrderedMap<char, Option<int>>)
    ensures fresh(m) && m.Valid()
    ensures m.data == [MapData.Entry('a', Some(1)), MapData.Entry('b', Some(2)), MapData.Entry('c', Some(3)), MapData.Entry('d', Some(4))]
  {
    m := new OrderedMap<char, Option<int>>();
    MapData.PutNew(m.data, 'a', Some(1));
    var _ := m.Set('a', Some(1));
    MapData.PutNew(m.data, 'b', Some(2));
    var _ := m.Set('b', Some(2));
    MapData.PutNew(m.data, 'c', Some(3));
    var _ := m.Set('c', Some(3));
    MapData.PutNew(m.data, 'd', Some(4));
    var _ := m.Set('d', Some(4));
  }

  /**
   * A keys iterator that has yielded `a` sees the deletion of `a`, `b`, `c` and
   * the later insertion of `e`: it goes on with `d` and `e`, then reports done,
   * and stays done after `f` is added.
   */
  method LiveKeysIterator() returns (results: seq<char>, deleted: bool, doneAtEnd: bool, doneAfterMore: bool)
    ensures results == ['a', 'd', 'e']
    ensures deleted
    ensures doneAtEnd && doneAfterMore
  {
    var m := FourLetters();
    var it := m.Keys();
    var s1 := it.Next();
    assert s1 == Yield(Key('a')) && it.cursor == 1;
    MapData.RemoveAt(m.data, 'a', 0);
    var removedA := m.Delete('a');
    MapData.RemoveAt(m.data, 'b', 1);
    var removedB := m.Delete('b');
    MapData.RemoveAt(m.data, 'c', 2);
    var removedC := m.Delete('c');
    deleted := removedA && removedB && removedC;
    MapData.PutNew(m.data, 'e', None);
    var _ := m.Set('e', None);
    assert m.data == [MapData.Empty, MapData.Empty, MapData.Empty, MapData.Entry('d', Some(4)), MapData.Entry('e', None)];
    assert MapData.NextLive(m.data, 3) == 3;
    assert MapData.NextLive(m.data, 1) == 3;
    var s2 := it.Next();
    assert MapData.NextLive(m.data, 4) == 4;
    var s3 := it.Next();
    var s4 := it.Next();
    MapData.PutNew(m.data, 'f', None);
    var _ := m.Set('f', None);
    var s5 := it.Next();
    results := [s1.item.key, s2.item.key, s3.item.key];
    doneAtEnd := s4 == Done;
    doneAfterMore := s5 == Done;
  }

  /** A map of `'0'`..`'3'`, each set to 9. */
  method Digits() returns (m: OrderedMap<char, int>)
    ensures fresh(m) && m.Valid()
    ensures m.data == [MapData.Entry('0', 9), MapData.Entry('1', 9), MapData.Entry('2', 9), MapData.Entry('3', 9)]
  {
    m := new OrderedMap<char, int>();
    MapData.PutNew(m.data, '0', 9);
    var _ := m.Set('0', 9);
    MapData.PutNew(m.data, '1', 9);
    var _ := m.Set('1', 9);
    MapData.PutNew(m.data, '2', 9);
    var _ := m.Set('2', 9);
    MapData.PutNew(m.data, '3', 9);
    var _ := m.Set('3', 9);
  }

  /** A callback that, on its third call (key `'2'`), deletes `'2'`, `'3'`, `'1'` and sets `'4'`. */
  const DeleteAhead: seq<seq<MapData.Command<char, int>>> :=
    [[], [], [MapData.DeleteCmd('2'), MapData.DeleteCmd('3'), MapData.DeleteCmd('1'), MapData.SetCmd('4', 9)]]

  /** What the third call does to the entry list. */
  lemma DeleteAheadCallback(d: seq<MapData.Slot<char, int>>)
    requires d == [MapData.Entry('0', 9), MapData.Entry('1', 9), MapData.Entry('2', 9), MapData.Entry('3', 9)]
    ensures MapData.ApplyAll(d, DeleteAhead[2]) ==
      [MapData.Entry('0', 9), MapData.Empty, MapData.Empty, MapData.Empty, MapData.Entry('4', 9)]
  {
    var d1 := d[2 := MapData.Empty];
    MapData.RemoveAt(d, '2', 2);
    var d2 := d1[3 := MapData.Empty];
    MapData.RemoveAt(d1, '3', 3);
    var d3 := d2[1 := MapData.Empty];
    MapData.RemoveAt(d2, '1', 1);
    MapData.PutNew(d3, '4', 9);
    var cs := DeleteAhead[2];
    assert cs[1..][1..][1..][1..] == [];
  }

  /** The walk visits `'0'`, `'1'`, `'2'`, skips the deleted `'3'` and reaches the appended `'4'`. */
  lemma DeleteAheadWalk(d: seq<MapData.Slot<char, int>>)
    requires d == [MapData.Entry('0', 9), MapData.Entry('1', 9), MapData.Entry('2', 9), MapData.Entry('3', 9)]
    ensures MapData.Walk(d, 0, DeleteAhead).0 == [('0', 9), ('1', 9), ('2', 9), ('4', 9)]
  {
    var e := [MapData.Entry('0', 9), MapData.Empty, MapData.Empty, MapData.Empty, MapData.Entry('4', 9)];
    DeleteAheadCallback(d);
    var none: seq<seq<MapData.Command<char, int>>> := [];
    assert MapData.Walk(e, 5, none).0 == [];
    assert MapData.ApplyAll(e, MapData.NextStep(none)) == e;
    assert MapData.Walk(e, 4, none).0 == [('4', 9)] + MapData.Walk(e, 5, none).0;
    assert MapData.Walk(e, 3, none).0 == [('4', 9)];
    var third := DeleteAhead[2..];
    assert MapData.NextStep(third) == DeleteAhead[2] && MapData.Later(third) == none;
    assert MapData.Walk(d, 2, third).0 == [('2', 9)] + MapData.Walk(e, 3, none).0;
    var second := DeleteAhead[1..];
    assert MapData.NextStep(second) == [] && MapData.Later(second) == third;
    assert MapData.ApplyAll(d, []) == d;
    assert MapData.Walk(d, 1, second).0 == [('1', 9), ('2', 9), ('4', 9)];
    assert MapData.NextStep(DeleteAhead) == [] && MapData.Later(DeleteAhead) == second;
  }

  /** `forEach` with the `DeleteAhead` callback passes the keys `0`, `1`, `2`, `4`. */
  method ForEachDeletesAhead() returns (visited: seq<(char, int)>)
    ensures visited == [('0', 9), ('1', 9), ('2', 9), ('4', 9)]
  {
    var m := Digits();
    DeleteAheadWalk(m.data);
    visited := m.ForEach(DeleteAhead);
  }

  /** `new Map([['0', 1]])` whose `forEach` callback deletes the entry it was given. */
  method ForEachDeletesCurrent() returns (visited: seq<(char, int)>, sizeAfter: nat)
    ensures visited == [('0', 1)] && sizeAfter == 0
  {
    var m := new OrderedMap<char, int>.FromPairs([('0', 1)]);
    MapData.PutNew([], '0', 1);
    assert m.data == [MapData.Entry('0', 1)];
    var script := [[MapData.DeleteCmd('0')]];
    var d := m.data;
    MapData.RemoveAt(d, '0', 0);
    assert MapData.ApplyAll(d, script[0]) == [MapData.Empty];
    assert MapData.Walk<char, int>([MapData.Empty], 1, []) == ([], [MapData.Empty]);
    assert MapData.Later(script) == [];
    assert MapData.NextStep(script) == script[0];
    assert d[0].Entry? && 0 < |d|;
    assert MapData.Walk(d, 0, script) == ([('0', 1)] + MapData.Walk(MapData.ApplyAll(d, MapData.NextStep(script)), 1, MapData.Later(script)).0, MapData.Walk(MapData.ApplyAll(d, MapData.NextStep(script)), 1, MapData.Later(script)).1);
    ghost var n := MapData.ApplyAll(d, MapData.NextStep(script));
    assert n == [MapData.Empty];
    assert MapData.Walk(n, 1, MapData.Later(script)) == ([], [MapData.Empty]);
    assert [('0', 1)] + MapData.Walk(n, 1, MapData.Later(script)).0 == [('0', 1)];
    assert MapData.Walk(d, 0, script).1 == [MapData.Empty];
    assert MapData.Walk(d, 0, script).0 == [('0', 1)];
    MapData.EntriesSingle<char, int>(MapData.Empty);
    visited := m.ForEach(script);
    sizeAfter := m.size;
  }

  /** `new Map` from three pairs with distinct keys has size 3. */
  method InitFromIterable() returns (size: nat)
    ensures size == 3
  {
    var ps: seq<(int, int)> := [(1, 1), (2, 2), (3, 3)];
    var m := new OrderedMap<int, int>.FromPairs(ps);
    var e1: seq<MapData.Slot<int, int>> := [MapData.Entry(1, 1)];
    var e2 := e1 + [MapData.Entry(2, 2)];
    var e3 := e2 + [MapData.Entry(3, 3)];
    MapData.PutNew([], 1, 1);
    MapData.PutNew(e1, 2, 2);
    MapData.PutNew(e2, 3, 3);
    assert |ps[1..][1..][1..]| == 0;
    assert MapData.PutAll([], ps) == e3;
    MapData.EntriesSingle(MapData.Entry(1, 1));
    MapData.EntriesSingle(MapData.Entry(2, 2));
    MapData.EntriesSingle(MapData.Entry(3, 3));
    MapData.EntriesConcat(e1, [MapData.Entry(2, 2)]);
    MapData.EntriesConcat(e2, [MapData.Entry(3, 3)]);
    assert |MapData.Entries(e3)| == 3;
    size := m.size;
  }

  /** `set` on a present key overwrites: the size counts distinct keys and `get` reads the last value. */
  method SetOverwrites() returns (size: nat, two: Option<int>, four: Option<int>)
    ensures size == 3 && two == Some(5) && four == None
  {
    var m := new OrderedMap<int, int>();
    MapData.PutNew(m.data, 2, 1);
    var _ := m.Set(2, 1);
    MapData.PutNew(m.data, 3, 1);
    var _ := m.Set(3, 1);
    assert 2 in MapData.Keys(m.data) by { MapData.ListedIffHeld(m.data, 2); }
    var _ := m.Set(2, 5);
    assert m.data == [MapData.Entry(2, 5), MapData.Entry(3, 1)];
    MapData.PutNew(m.data, 1, 4);
    var _ := m.Set(1, 4);
    size := m.size;
    MapData.FindIs(m.data, 2, 0);
    MapData.FindIs(m.data, 4, 3);
    two := m.Get(2);
    four := m.Get(4);
    assert size == 3;
    assert two == Some(5);
    assert four == None;
  }

  /** A map holding 2, 3 and 1, built by four `set` calls, 2 set twice. */
  method TwoThreeOne() returns (m: OrderedMap<int, int>)
    ensures fresh(m) && m.Valid() && m.size == 3
    ensures m.data == [MapData.Entry(2, 5), MapData.Entry(3, 7), MapData.Entry(1, 4)]
  {
    m := new OrderedMap<int, int>();
    MapData.PutNew(m.data, 2, 1);
    var _ := m.Set(2, 1);
    MapData.PutNew(m.data, 3, 7);
    var _ := m.Set(3, 7);
    assert 2 in MapData.Keys(m.data) by { MapData.ListedIffHeld(m.data, 2); }
    var _ := m.Set(2, 5);
    assert m.data == [MapData.Entry(2, 5), MapData.Entry(3, 7)];
    MapData.PutNew(m.data, 1, 4);
    var _ := m.Set(1, 4);
  }

  /** `delete` of an absent key answers false and keeps the size; of a present key, true and one less. */
  method DeleteAnswers() returns (absent: bool, sizeAfterAbsent: nat, present: bool, sizeAfterPresent: nat)
    ensures !absent && sizeAfterAbsent == 3
    ensures present && sizeAfterPresent == 2
  {
    var m := TwoThreeOne();
    MapData.FindIs(m.data, 4, 3);
    MapData.ListedIffHeld(m.data, 4);
    absent := m.Delete(4);
    sizeAfterAbsent := m.size;
    MapData.FindIs(m.data, 2, 0);
    MapData.ListedIffHeld(m.data, 2);
    present := m.Delete(2);
    sizeAfterPresent := m.size;
  }

  /** After `clear` the size is 0 and no former key is present. */
  method ClearForgets() returns (size: nat, hasOne: bool, hasTwo: bool)
    ensures size == 0 && !hasOne && !hasTwo
  {
    var m := TwoThreeOne();
    m.Clear();
    size := m.size;
    MapData.WipeListsNothing(m.data);
    hasOne := m.Has(1);
    hasTwo := m.Has(2);
  }

  /** `entries()` on `a→q, s→w, d→e` yields the three pairs in insertion order, then done. */
  method EntriesInOrder() returns (first: Step<char, char>, second: Step<char, char>, third: Step<char, char>, fourth: Step<char, char>)
    ensures first == Yield(Pair('a', 'q')) && second == Yield(Pair('s', 'w')) && third == Yield(Pair('d', 'e'))
    ensures fourth == Done
  {
    var m := new OrderedMap<char, char>();
    MapData.PutNew(m.data, 'a', 'q');
    var _ := m.Set('a', 'q');
    MapData.PutNew(m.data, 's', 'w');
    var _ := m.Set('s', 'w');
    MapData.PutNew(m.data, 'd', 'e');
    var _ := m.Set('d', 'e');
    var it := m.Entries();
    first := it.Next();
    second := it.Next();
    third := it.Next();
    fourth := it.Next();
  }
}
