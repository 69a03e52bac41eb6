/** The growable array behind String and the automaton's state list. */
module Vectors {
  import opened Doubles

  const InitialCapacity: nat := 16

  /** A contiguous buffer of `objects.Length` slots whose first `size` slots
      hold the elements (`objects`, `next_free_space` and `end_free_space`
      of the source become the array, the size and the array length). */
  class Vector<T(0)> {
    var objects: array<T>
    var size: nat
    ghost var Repr: set<object>

    ghost predicate Valid()
      reads this, Repr
    {
      Repr == {this, objects} && size <= objects.Length
    }

    function Elements(): seq<T>
      reads this, objects
      requires size <= objects.Length
    {
      objects[..size]
    }

    function Capacity(): nat
      reads this, objects
    {
      objects.Length
    }

    /** free_capacity(), which String calls: the slots left past the
        elements. */
    function FreeCapacity(): (r: nat)
      reads this, objects
      requires size <= objects.Length
      ensures size + r == Capacity()
    {
      objects.Length - size
    }

    /** An empty vector with room for `capacity` elements. */
    constructor (capacity: nat)
      ensures Valid() && fresh(Repr)
      ensures Elements() == [] && Capacity() == capacity
    {
      objects := new T[capacity];
      size := 0;
      Repr := {this, objects};
    }

    /** A vector holding a copy of `source` in a buffer of `capacity` slots;
        the source copies without a bounds check, so `source` must fit. */
    constructor FromRange(source: seq<T>, capacity: nat)
      requires |source| <= capacity
      ensures Valid() && fresh(Repr)
      ensures Elements() == source && Capacity() == capacity
    {
      var a := new T[capacity];
      var i := 0;
      while i < |source|
        invariant 0 <= i <= |source|
        invariant a[..i] == source[..i]
      {
        a[i] := source[i];
        i := i + 1;
      }
      objects := a;
      size := |source|;
      Repr := {this, a};
    }

    /** operator[]: the source does not check the index; reading a slot past
        the size is undefined, so the model asks for an index below it. */
    function At(index: nat): (r: T)
      reads this, objects
      requires size <= objects.Length && index < size
      ensures r == Elements()[index]
    {
      objects[index]
    }

    /** Moves the elements into a fresh buffer of `newCapacity` slots. */
    method Resize(newCapacity: nat)
      requires Valid() && size <= newCapacity
      modifies Repr
      ensures Valid() && fresh(Repr - old(Repr))
      ensures Elements() == old(Elements()) && Capacity() == newCapacity
    {
      var a := new T[newCapacity];
      var i := 0;
      while i < size
        invariant Valid() && objects == old(objects) && size == old(size)
        invariant objects[..] == old(objects[..])
        invariant a.Length == newCapacity && 0 <= i <= size
        invariant a[..i] == objects[..i]
      {
        a[i] := objects[i];
        i := i + 1;
      }
      objects := a;
      Repr := {this, a};
    }

    /** Grows the buffer to `(size + required) * 1.4`, computed in double
        arithmetic, when fewer than `required` slots are free; afterwards at
        least `required` are. */
    method ResizeOnDemand(required: nat)
      requires Valid()
      modifies Repr
      ensures Valid() && fresh(Repr - old(Repr))
      ensures Elements() == old(Elements())
      ensures FreeCapacity() >= required
      ensures old(FreeCapacity()) >= required ==> objects == old(objects)
      ensures old(FreeCapacity()) < required ==> Capacity() == TimesOnePointFour(size + required)
    {
      if objects.Length - size < required {
        Resize(TimesOnePointFour(size + required));
      }
    }

    /** Inserts `range` before position `offset` and returns that position;
        the elements from `offset` on move up by `|range|`. */
    method Insert(offset: nat, range: seq<T>) returns (target: nat)
      requires Valid() && offset <= size
      modifies Repr
      ensures Valid() && fresh(Repr - old(Repr))
      ensures target == offset
      ensures Elements() == old(Elements())[..offset] + range + old(Elements())[offset..]
    {
      ghost var e := Elements();
      ResizeOnDemand(|range|);
      ShiftUp(offset, |range|);
      CopyIn(offset, range);
      target := offset;
      assert Elements() == e[..offset] + range + e[offset..] by {
        forall k | 0 <= k < size
          ensures objects[k] == (e[..offset] + range + e[offset..])[k]
        {
          if k < offset {
          } else if k < offset + |range| {
          } else {
            assert e[offset..][k - offset - |range|] == e[k - |range|];
          }
        }
      }
    }

    /** The `copy_backward` step of insert: moves the slots from `offset` on
        up by `count` and extends the size by `count`. */
    method ShiftUp(offset: nat, count: nat)
      requires Valid() && offset <= size && FreeCapacity() >= count
      modifies this`size, objects
      ensures Valid() && size == old(size) + count
      ensures forall k :: 0 <= k < offset ==> objects[k] == old(objects[k])
      ensures forall k :: offset + count <= k < size ==> objects[k] == old(objects[k - count])
    {
      var i := size;
      while i > offset
        invariant offset <= i <= size && size == old(size)
        invariant forall k :: 0 <= k < i ==> objects[k] == old(objects[k])
        invariant forall k :: i + count <= k < size + count ==> objects[k] == old(objects[k - count])
        decreases i
      {
        i := i - 1;
        objects[i + count] := objects[i];
      }
      size := size + count;
    }

    /** The `copy` step of insert: writes `range` into the slots from
        `offset` on. */
    method CopyIn(offset: nat, range: seq<T>)
      requires Valid() && offset + |range| <= size
      modifies objects
      ensures forall k :: 0 <= k < offset ==> objects[k] == old(objects[k])
      ensures forall k :: 0 <= k < |range| ==> objects[offset + k] == range[k]
      ensures forall k :: offset + |range| <= k < size ==> objects[k] == old(objects[k])
    {
      var j := 0;
      while j < |range|
        invariant 0 <= j <= |range|
        invariant forall k :: 0 <= k < offset ==> objects[k] == old(objects[k])
        invariant forall k :: 0 <= k < j ==> objects[offset + k] == range[k]
        invariant forall k :: offset + |range| <= k < size ==> objects[k] == old(objects[k])
      {
        objects[offset + j] := range[j];
        j := j + 1;
      }
    }

    /** push_back: makes room for one element and appends it. */
    method PushBack(x: T)
      requires Valid()
      modifies Repr
      ensures Valid() && fresh(Repr - old(Repr))
      ensures Elements() == old(Elements()) + [x]
      ensures old(FreeCapacity()) >= 1 ==> objects == old(objects)
      ensures old(FreeCapacity()) < 1 ==> Capacity() == TimesOnePointFour(old(size) + 1)
    {
      ResizeOnDemand(1);
      objects[size] := x;
      size := size + 1;
    }

    /** pop_back(), which String calls: drops the last element; the
        buffer keeps its capacity. */
    method PopBack()
      requires Valid() && size > 0
      modifies this
      ensures Valid() && Repr == old(Repr) && objects == old(objects)
      ensures Elements() == old(Elements())[..old(size) - 1]
    {
      size := size - 1;
    }
  }

  /** Exchanges the buffers of two vectors (the friend `swap`). */
  method Swap<T(0)>(left: Vector<T>, right: Vector<T>)
    requires left.Valid() && right.Valid() && left != right
    modifies left, right
    ensures left.Valid() && right.Valid()
    ensures left.Elements() == old(right.Elements()) && right.Elements() == old(left.Elements())
    ensures left.Repr == {left} + (old(right.Repr) - {right})
    ensures right.Repr == {right} + (old(left.Repr) - {left})
  {
    left.objects, right.objects := right.objects, left.objects;
    left.size, right.size := right.size, left.size;
    left.Repr, right.Repr := {left, left.objects}, {right, right.objects};
  }
}
