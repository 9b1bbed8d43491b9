/**
  The worklist buffer (`struct subarrays *list` with `size` and `maxsize`).

  The three traversals keep their pending arrays in a flat buffer that starts
  with room for 10 items and is reallocated ten times larger when it is
  nearly full. Items are appended at `size`; a cursor kept by the caller
  walks from 0 towards `size`, so the buffer is used as a FIFO queue.
*/
module Worklists {

  class Worklist<T(0)> {
    var list: array<T>
    var size: nat
    var maxsize: nat
    /** The items appended so far, oldest first. */
    ghost var items: seq<T>

    ghost predicate Valid()
      reads this, list
    {
      && list.Length == maxsize && 10 <= maxsize && size <= maxsize
      && size == |items| && list[..size] == items
    }

    /** alloc_subarray_list with `init` set: a fresh buffer for 10 items. */
    constructor Alloc()
      ensures Valid() && fresh(list)
      ensures maxsize == 10 && items == []
    {
      list := new T[10];
      size := 0;
      maxsize := 10;
      items := [];
    }

    /**
      alloc_subarray_list with `init` clear, called with `maxsize * 10`:
      a buffer ten times larger that holds the same items.
    */
    method Grow()
      requires Valid()
      modifies this
      ensures Valid() && fresh(list)
      ensures maxsize == 10 * old(maxsize)
      ensures size == old(size) && items == old(items)
    {
      var bigger := new T[10 * maxsize];
      forall k | 0 <= k < size {
        bigger[k] := list[k];
      }
      assert bigger[..size] == list[..size];
      list := bigger;
      maxsize := 10 * maxsize;
    }

    /** The check at the top of each iteration: grow when `size >= maxsize - 1`. */
    method GrowIfNearlyFull()
      requires Valid()
      modifies this
      ensures Valid() && (list == old(list) || fresh(list))
      ensures size == old(size) && items == old(items)
      ensures maxsize == if old(size) >= old(maxsize) - 1 then 10 * old(maxsize) else old(maxsize)
    {
      if size >= maxsize - 1 {
        Grow();
      }
    }

    /**
      Append one item. The same nearly-full check runs before every append,
      so the write at `size` is always inside the buffer.
    */
    method Push(x: T)
      requires Valid()
      modifies this, list
      ensures Valid() && (list == old(list) || fresh(list))
      ensures items == old(items) + [x]
      ensures size < maxsize
      ensures maxsize == if old(size) >= old(maxsize) - 1 then 10 * old(maxsize) else old(maxsize)
    {
      GrowIfNearlyFull();
      list[size] := x;
      size := size + 1;
      items := items + [x];
    }

    /** The item at position `i` (`list[i]`). */
    function At(i: nat): (x: T)
      reads this, list
      requires Valid() && i < size
      ensures x == items[i]
    {
      list[i]
    }
  }

  /** Capacity after the nearly-full check at the top of an iteration. */
  function CapacityAtTop(size: nat, maxsize: nat): (cap: nat)
    ensures cap >= maxsize
    ensures size + 1 >= maxsize ==> cap == 10 * maxsize
  {
    if size + 1 >= maxsize then 10 * maxsize else maxsize
  }

  /**
    As written, an iteration that starts with `size` items checks the
    capacity once and then appends one item per subarray it meets; the last
    of `pushes` appends writes slot `size + pushes - 1`.
  */
  predicate AsWrittenInBounds(size: nat, maxsize: nat, pushes: nat) {
    pushes == 0 || size + pushes - 1 < CapacityAtTop(size, maxsize)
  }

  /**
    The check as written lets an iteration overrun the buffer: any iteration
    that meets more subarrays than the room left after its check writes
    past the end. In the first iteration of a copy (one item, room for 10)
    nine subarrays fit and the tenth is written to slot 10.
  */
  lemma AsWrittenOverflow(size: nat, maxsize: nat)
    requires size < maxsize
    ensures !AsWrittenInBounds(size, maxsize, CapacityAtTop(size, maxsize) - size + 1)
    ensures AsWrittenInBounds(1, 10, 9) && !AsWrittenInBounds(1, 10, 10)
  {
  }
}
