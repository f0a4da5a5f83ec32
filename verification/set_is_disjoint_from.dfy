/**
 * `Set.prototype.isDisjointFrom(other)` (section 24.2.4.10 of ECMAScript 2025).
 *
 * The receiver must be a genuine Set; `other` is read through its set record:
 * a `size`, an `includes` query (the record's `has`) and the sequence its
 * `keys()` iterator produces. The smaller side is scanned, and the scan stops
 * at the first element the other side holds.
 */
module SetIsDisjointFrom {

  /**
   * The `this` value: a Set with its elements in insertion order, or anything
   * else. A Set holds each element once, so a well-formed `SetObject` has
   * `Distinct` elements and its size is their number.
   */
  datatype Receiver<T> = SetObject(elements: seq<T>) | NotASet

  /** What `getSetRecord(other)` yields. */
  datatype SetRecord<!T> = SetRecord(size: nat, includes: T -> bool, keys: seq<T>)

  /** The method's completion: a boolean, or the TypeError thrown by `aSet`. */
  datatype Outcome = Ok(disjoint: bool) | TypeError

  /** The `has(O, e)` query on the receiver, as a predicate. */
  function MemberOf<T(==,!new)>(xs: seq<T>): T -> bool {
    e => e in xs
  }

  /** No element occurs twice: what a Set's insertion-ordered element list looks like. */
  ghost predicate Distinct<T>(xs: seq<T>) {
    forall i, j :: 0 <= i < j < |xs| ==> xs[i] != xs[j]
  }

  /**
   * The set record `getSetRecord` builds for a genuine Set with these elements:
   * its keys are the elements, its `has` is membership in them, and its size
   * is the number of elements the Set holds.
   */
  function RecordOf<T(==,!new)>(xs: seq<T>): (rec: SetRecord<T>)
    requires Distinct(xs)
    ensures rec.keys == xs
    ensures forall e :: rec.includes(e) <==> e in xs
    ensures Faithful(rec) && rec.size == |Elements(xs)|
  {
    DistinctCount(xs);
    SetRecord(|xs|, MemberOf(xs), xs)
  }

  /** A set record whose `includes` answers exactly for the keys it iterates. */
  ghost predicate Faithful<T(!new)>(rec: SetRecord<T>) {
    forall e :: rec.includes(e) <==> e in rec.keys
  }

  ghost function Elements<T>(xs: seq<T>): set<T> {
    set x | x in xs
  }

  /** A list without repeats has as many elements as its set of elements. */
  lemma {:induction false} DistinctCount<T>(xs: seq<T>)
    requires Distinct(xs)
    ensures |Elements(xs)| == |xs|
  {
    if xs != [] {
      var rest := xs[1..];
      assert Distinct(rest) by {
        forall i, j | 0 <= i < j < |rest|
          ensures rest[i] != rest[j]
        {
          assert rest[i] == xs[i + 1] && rest[j] == xs[j + 1];
        }
      }
      DistinctCount(rest);
      assert xs[0] !in Elements(rest) by {
        forall k | 0 <= k < |rest|
          ensures rest[k] != xs[0]
        {
          assert rest[k] == xs[k + 1];
        }
      }
      assert Elements(xs) == {xs[0]} + Elements(rest) by {
        assert xs == [xs[0]] + rest;
      }
    }
  }

  /** The specification: the two collections have no element in common. */
  ghost predicate Disjoint<T>(xs: seq<T>, ys: seq<T>) {
    Elements(xs) * Elements(ys) == {}
  }

  /** The index of the first element of `xs` that `hit` accepts, or `|xs|` if there is none. */
  function FirstHit<T>(xs: seq<T>, hit: T -> bool): (k: nat)
    ensures k <= |xs|
    ensures forall j :: 0 <= j < k ==> !hit(xs[j])
    ensures k < |xs| ==> hit(xs[k])
    decreases |xs|
  {
    if xs == [] then 0
    else if hit(xs[0]) then 0
    else 1 + FirstHit(xs[1..], hit)
  }

  /** How many elements an early-exit scan of `xs` looks at. */
  function Reach<T>(xs: seq<T>, hit: T -> bool): nat {
    var k := FirstHit(xs, hit);
    if k < |xs| then k + 1 else |xs|
  }

  /**
   * The loop shared by both branches: walks `xs` in order, asks `hit` of each
   * element, and stops at the first one it accepts. `probed` lists the elements
   * the query was asked about.
   */
  method Scan<T>(xs: seq<T>, hit: T -> bool) returns (found: bool, probed: seq<T>)
    ensures found <==> exists j :: 0 <= j < |xs| && hit(xs[j])
    ensures probed == xs[..Reach(xs, hit)]
    ensures found ==> hit(probed[|probed| - 1])
  {
    var i := 0;
    probed := [];
    while i < |xs|
      invariant 0 <= i <= |xs|
      invariant probed == xs[..i]
      invariant forall j :: 0 <= j < i ==> !hit(xs[j])
    {
      probed := probed + [xs[i]];
      if hit(xs[i]) {
        assert FirstHit(xs, hit) == i;
        return true, probed;
      }
      i := i + 1;
    }
    assert FirstHit(xs, hit) == |xs|;
    found := false;
  }

  /**
   * `isDisjointFrom`: a non-Set receiver throws before anything is read. When
   * the receiver is no larger than `other.size`, its elements are scanned and
   * `other.includes` is asked of each; otherwise `other`'s keys are scanned and
   * the receiver's `has` is asked of each. `probed` lists the elements asked about.
   */
  method IsDisjointFrom<T(==,!new)>(receiver: Receiver<T>, other: SetRecord<T>) returns (r: Outcome, probed: seq<T>)
    requires receiver.SetObject? ==> Distinct(receiver.elements)
    ensures receiver.NotASet? ==> r == TypeError && probed == []
    ensures receiver.SetObject? && |receiver.elements| <= other.size ==>
      r == Ok(forall e :: e in receiver.elements ==> !other.includes(e)) &&
      probed == receiver.elements[..Reach(receiver.elements, other.includes)]
    ensures receiver.SetObject? && |receiver.elements| > other.size ==>
      r == Ok(forall e :: e in other.keys ==> e !in receiver.elements) &&
      probed == other.keys[..Reach(other.keys, MemberOf(receiver.elements))]
    ensures receiver.SetObject? && Faithful(other) ==> r == Ok(Disjoint(receiver.elements, other.keys))
    ensures receiver == SetObject([]) ==> r == Ok(true) && probed == []
  {
    if receiver.NotASet? {
      return TypeError, [];
    }
    var o := receiver.elements;
    var shared: bool;
    if |o| <= other.size {
      shared, probed := Scan(o, other.includes);
    } else {
      shared, probed := Scan(other.keys, MemberOf(o));
    }
    r := Ok(!shared);
    if Faithful(other) {
      BranchesAgree(o, other);
    }
  }

  /**
   * With a faithful record both scans answer the specification: scanning the
   * receiver against `includes` and scanning `other`'s keys against the
   * receiver both find a shared element exactly when the intersection is non-empty.
   */
  lemma BranchesAgree<T(!new)>(xs: seq<T>, rec: SetRecord<T>)
    requires Faithful(rec)
    ensures (forall e :: e in xs ==> !rec.includes(e)) <==> Disjoint(xs, rec.keys)
    ensures (forall e :: e in rec.keys ==> e !in xs) <==> Disjoint(xs, rec.keys)
  {
    if !Disjoint(xs, rec.keys) {
      var e :| e in Elements(xs) * Elements(rec.keys);
      assert e in xs && rec.includes(e);
    } else {
      assert forall e :: e in xs && e in rec.keys ==> e in Elements(xs) * Elements(rec.keys);
    }
  }

  /** Disjointness does not depend on which side is called the receiver. */
  lemma DisjointSymmetric<T>(xs: seq<T>, ys: seq<T>)
    ensures Disjoint(xs, ys) <==> Disjoint(ys, xs)
  {
    assert Elements(xs) * Elements(ys) == Elements(ys) * Elements(xs);
  }

  /** An element shared by both sides makes them not disjoint, whichever side holds it first. */
  lemma SharedElementBreaksDisjointness<T>(xs: seq<T>, ys: seq<T>, e: T)
    requires e in xs && e in ys
    ensures !Disjoint(xs, ys)
  {
    assert e in Elements(xs) * Elements(ys);
  }

  /**
   * `a.isDisjointFrom(b)` for two genuine Sets: `b`'s record is built from its
   * elements, and the answer is whether they share no element.
   */
  method BetweenSets<T(==,!new)>(a: seq<T>, b: seq<T>) returns (r: Outcome)
    requires Distinct(a) && Distinct(b)
    ensures r == Ok(Disjoint(a, b))
  {
    var probed;
    r, probed := IsDisjointFrom(SetObject(a), RecordOf(b));
  }
}
