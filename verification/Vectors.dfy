/** The resizable array that the collector and the mapper keep their records in. */
module Vectors {

  const SIZE_MAX: nat := 0xFFFF_FFFF_FFFF_FFFF
  const INIT_MAXELEMS: nat := 256
  const FACTOR: nat := 2

  // ----- sorting -----

  ghost predicate TotalOrder<T(!new)>(leq: (T, T) -> bool) {
    && (forall a, b :: leq(a, b) || leq(b, a))
    && (forall a, b, c :: leq(a, b) && leq(b, c) ==> leq(a, c))
  }

  ghost predicate InOrder<T>(leq: (T, T) -> bool, s: seq<T>) {
    forall i, j :: 0 <= i < j < |s| ==> leq(s[i], s[j])
  }

  function InsertInto<T>(leq: (T, T) -> bool, x: T, s: seq<T>): seq<T> {
    if s == [] || leq(x, s[0]) then [x] + s else [s[0]] + InsertInto(leq, x, s[1..])
  }

  function Sorted<T>(leq: (T, T) -> bool, s: seq<T>): seq<T> {
    if s == [] then [] else InsertInto(leq, s[0], Sorted(leq, s[1..]))
  }

  lemma {:induction false} InsertKeepsOrder<T(!new)>(leq: (T, T) -> bool, x: T, s: seq<T>)
    requires TotalOrder(leq) && InOrder(leq, s)
    ensures InOrder(leq, InsertInto(leq, x, s)) && multiset(InsertInto(leq, x, s)) == multiset(s) + multiset{x}
  {
    if s != [] && !leq(x, s[0]) {
      InsertKeepsOrder(leq, x, s[1..]);
      assert s == [s[0]] + s[1..];
      var r := InsertInto(leq, x, s[1..]);
      forall j | 0 <= j < |r| ensures leq(s[0], r[j]) {
        assert r[j] in multiset(r);
        assert r[j] == x || r[j] in s[1..];
      }
    }
  }

  /** A sorted list is in order and holds the same elements. */
  lemma {:induction false} SortedInOrder<T(!new)>(leq: (T, T) -> bool, s: seq<T>)
    requires TotalOrder(leq)
    ensures InOrder(leq, Sorted(leq, s)) && multiset(Sorted(leq, s)) == multiset(s)
  {
    if s != [] {
      SortedInOrder(leq, s[1..]);
      InsertKeepsOrder(leq, s[0], Sorted(leq, s[1..]));
      assert s == [s[0]] + s[1..];
    }
  }

  lemma {:induction false} WithinLimit(n: nat, elemsize: nat)
    requires elemsize > 0 && n <= (SIZE_MAX / FACTOR) / elemsize
    ensures n * FACTOR * elemsize <= SIZE_MAX
  {
    var half := SIZE_MAX / FACTOR;
    assert n * elemsize <= (half / elemsize) * elemsize <= half;
    assert n * FACTOR * elemsize == FACTOR * (n * elemsize);
  }

  class Vector<T(0, !new)> {
    const elemsize: nat
    var data: array<T>    // its length is the capacity v_maxelems
    var nelems: nat

    ghost predicate Valid()
      reads this
    {
      elemsize > 0 && nelems <= data.Length && data.Length >= INIT_MAXELEMS
    }

    function Contents(): (s: seq<T>)
      reads this, data
      requires Valid()
      ensures |s| == nelems
    {
      data[..nelems]
    }

    constructor (elemsize: nat)
      requires elemsize > 0
      ensures Valid() && Contents() == [] && fresh(data)
    {
      this.elemsize := elemsize;
      data := new T[INIT_MAXELEMS];
      nelems := 0;
    }

    /** nilfs_vector_create: no vector for elements of size 0 */
    static method Create(elemsize: nat) returns (v: Vector?<T>)
      ensures elemsize == 0 <==> v == null
      ensures v != null ==> fresh(v) && v.Valid() && v.Contents() == [] && fresh(v.data)
    {
      if elemsize == 0 {
        return null;
      }
      v := new Vector<T>(elemsize);
    }

    /** nilfs_vector_enlarge: doubles the capacity until it suffices; memory may run out. */
    method Enlarge(minelems: nat) returns (ok: bool)
      requires Valid()
      modifies `data
      ensures Valid() && Contents() == old(Contents())
      ensures fresh(data) || data == old(data)
      ensures ok ==> data.Length >= minelems && data.Length > old(data.Length) && fresh(data)
      ensures ok ==> data.Length * elemsize <= SIZE_MAX
      ensures ok ==> data.Length == 2 * old(data.Length) || data.Length < 2 * minelems
    {
      var maxelems := data.Length;
      var nelemsLimit := (SIZE_MAX / FACTOR) / elemsize;
      forall n: nat | n <= nelemsLimit ensures n * FACTOR * elemsize <= SIZE_MAX { WithinLimit(n, elemsize); }
      if maxelems > nelemsLimit {
        return false;
      }
      maxelems := maxelems * FACTOR;
      while maxelems < minelems
        invariant data.Length < maxelems && maxelems * elemsize <= SIZE_MAX
        invariant maxelems == 2 * data.Length || maxelems < 2 * minelems
        decreases minelems - maxelems
      {
        if maxelems > nelemsLimit {
          return false;
        }
        maxelems := maxelems * FACTOR;
      }
      if * {
        return false;
      }
      var bigger := new T[maxelems];
      forall i | 0 <= i < data.Length {
        bigger[i] := data[i];
      }
      data := bigger;
      return true;
    }

    /** nilfs_vector_get_new_element, and the store of the new element */
    method Append(x: T) returns (ok: bool)
      requires Valid()
      modifies this, data
      ensures Valid() && (fresh(data) || data == old(data))
      ensures Contents() == if ok then old(Contents()) + [x] else old(Contents())
    {
      if nelems >= data.Length {
        ok := Enlarge(nelems + 1);
        if !ok {
          return;
        }
      }
      data[nelems] := x;
      nelems := nelems + 1;
      return true;
    }

    /** nilfs_vector_get_element */
    function Get(index: nat): (x: T)
      reads this, data
      requires Valid() && index < nelems
      ensures x == Contents()[index]
    {
      data[index]
    }

    /** A store through the pointer to an element. */
    method Set(index: nat, x: T)
      requires Valid() && index < nelems
      modifies data
      ensures Valid() && Contents() == old(Contents())[index := x]
    {
      data[index] := x;
    }

    /** nilfs_vector_delete_elements */
    method DeleteElements(index: nat, count: nat) returns (ok: bool)
      requires Valid()
      modifies `nelems, data
      ensures Valid()
      ensures ok <==> index < old(nelems) && index + count <= old(nelems) && index + count > 0
      ensures Contents() == if ok then old(Contents())[..index] + old(Contents())[index + count..] else old(Contents())
    {
      if index >= nelems || index + count == 0 || index + count - 1 >= nelems {
        return false;  // index + count - 1 wraps around when both are 0
      }
      if index + count - 1 < nelems - 1 {
        forall i | index <= i < nelems - count {
          data[i] := data[i + count];
        }
      }
      nelems := nelems - count;
      assert Contents() == old(Contents())[..index] + old(Contents())[index + count..];
      return true;
    }

    /** nilfs_vector_insert_elements for one element, and the store of the element */
    method Insert(index: nat, x: T) returns (ok: bool)
      requires Valid()
      modifies this, data
      ensures Valid() && (fresh(data) || data == old(data))
      ensures ok ==> index <= old(nelems)
      ensures Contents() == if ok then old(Contents())[..index] + [x] + old(Contents())[index..] else old(Contents())
    {
      if index > nelems || nelems >= SIZE_MAX {
        return false;
      }
      if nelems + 1 > data.Length {
        ok := Enlarge(nelems + 1);
        if !ok {
          return;
        }
      }
      MakeRoom(index, x);
      return true;
    }

    /** The elements from the place on move up by one. */
    method MakeRoom(index: nat, x: T)
      requires Valid() && index <= nelems < data.Length && nelems < SIZE_MAX
      modifies this`nelems, data
      ensures Valid() && data == old(data)
      ensures Contents() == old(Contents())[..index] + [x] + old(Contents())[index..]
    {
      ghost var before := data[..nelems];
      if index < nelems {
        forall i | index < i <= nelems {
          data[i] := data[i - 1];
        }
      }
      nelems := nelems + 1;
      data[index] := x;
      assert Contents() == before[..index] + [x] + before[index..];
    }

    /** nilfs_vector_clear: a large array may or may not be given back. */
    method Clear()
      requires Valid()
      modifies `data, `nelems
      ensures Valid() && Contents() == [] && (fresh(data) || data == old(data))
    {
      if data.Length > INIT_MAXELEMS {
        if * {
          data := new T[INIT_MAXELEMS];
        }
      }
      nelems := 0;
    }

    /** nilfs_vector_sort: the contract leaves open where elements of the same rank go. */
    method Sort(leq: (T, T) -> bool)
      requires Valid() && TotalOrder(leq)
      modifies data
      ensures Valid() && InOrder(leq, Contents())
      ensures multiset(Contents()) == multiset(old(Contents()))
    {
      var before := Contents();
      SortedInOrder(leq, before);
      var after := Sorted(leq, before);
      assert |after| == |multiset(after)| == |multiset(before)| == |before|;
      forall i | 0 <= i < |after| {
        data[i] := after[i];
      }
      assert Contents() == after;
    }
  }
}
