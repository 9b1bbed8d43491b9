/**
  The host interpreter as the extension sees it.

  Source arrays are read only through snapshots, so they are modelled as the
  snapshot itself: a `SrcArray` is the ordered list of its elements, and a
  subarray element holds the nested `SrcArray`. This makes every source tree
  finite and acyclic, and keeps it apart from the destination side.

  Destination arrays are host state: `Host.arrays` maps each live handle to
  the array's contents. The host also counts the snapshots handed out and not
  yet released.
*/
module HostApi {
  import opened Values

  /** A handle (array cookie) of a destination array. */
  type Id = nat

  /** A value as stored in a destination array. */
  type DValue = AwkValue<Id>

  /** One element of a snapshot: its index and its value. */
  datatype Element = Element(index: AwkValue<SrcArray>, value: AwkValue<SrcArray>)

  /** A source array, as its snapshot lists it. */
  datatype SrcArray = SrcArray(elements: seq<Element>)

  /**
    How a traversal leaves the host's open snapshots: it releases every
    snapshot it took, except, after a failure inside an element loop, the
    snapshot of the array being walked.
  */
  ghost predicate SnapshotsReleased(before: multiset<SrcArray>, after: multiset<SrcArray>, succeeded: bool) {
    && before <= after
    && |after - before| <= 1
    && (succeeded ==> after == before)
  }

  /** Every array value stored in `arrays` refers to a handle below `next`. */
  ghost predicate RefsBelow(arrays: map<Id, map<DValue, DValue>>, next: Id) {
    forall h, k | h in arrays && k in arrays[h] && arrays[h][k].Arr? :: arrays[h][k].cookie < next
  }

  class Host {
    /** Live destination arrays by handle. */
    var arrays: map<Id, map<DValue, DValue>>
    /** Every handle below `next` has been handed out. */
    var next: Id
    /** Snapshots taken and not yet released. */
    var open: multiset<SrcArray>

    /** Every live handle has been handed out. */
    ghost predicate Valid()
      reads this`arrays, this`next
    {
      forall h :: h in arrays ==> h < next
    }

    /**
      flatten_array_typed: take a snapshot of a source array. The host
      refuses to flatten an empty array.
    */
    method FlattenArrayTyped(a: SrcArray) returns (snap: Option<seq<Element>>)
      modifies this`open
      ensures snap == if a.elements == [] then None else Some(a.elements)
      ensures open == if snap.None? then old(open) else old(open) + multiset{a}
    {
      if a.elements == [] {
        snap := None;
      } else {
        snap := Some(a.elements);
        open := open + multiset{a};
      }
    }

    /** release_flattened_array: give back one snapshot of `a`. */
    method ReleaseFlattenedArray(a: SrcArray) returns (ok: bool)
      modifies this`open
      ensures ok == (a in old(open))
      ensures open == old(open) - multiset{a}
    {
      ok := a in open;
      open := open - multiset{a};
    }

    /** create_array: a new, empty array that is not yet attached anywhere. */
    method CreateArray() returns (h: Id)
      requires Valid()
      modifies this`arrays, this`next
      ensures Valid()
      ensures h == old(next) && next == old(next) + 1
      ensures arrays == old(arrays)[h := map[]]
      ensures RefsBelow(old(arrays), old(next)) ==> RefsBelow(arrays, next)
    {
      h := next;
      arrays := arrays[h := map[]];
      next := next + 1;
    }

    /**
      set_array_element: store `v` under `key` in the array `h`. The write
      fails on a handle that is not live. Storing an array attaches it: the
      host moves it under a new handle, retires the old one, and hands the
      new one back in `stored` (the caller must re-read it from there).
    */
    method SetArrayElement(h: Id, key: DValue, v: DValue) returns (ok: bool, stored: DValue)
      requires Valid()
      modifies this`arrays, this`next
      ensures Valid()
      ensures ok == (h in old(arrays) && (v.Arr? ==> v.cookie in old(arrays) && v.cookie != h))
      ensures RefsBelow(old(arrays), old(next)) && (v.Arr? ==> v.cookie < old(next)) ==> RefsBelow(arrays, next)
      ensures !ok ==> arrays == old(arrays) && next == old(next) && stored == v
      ensures ok && !v.Arr? ==>
        stored == v && next == old(next) && arrays == old(arrays)[h := old(arrays)[h][key := v]]
      ensures ok && v.Arr? ==>
        && stored == Arr(old(next))
        && next == old(next) + 1
        && arrays == (old(arrays) - {v.cookie})[old(next) := old(arrays)[v.cookie]][h := old(arrays)[h][key := stored]]
    {
      ok := h in arrays && (v.Arr? ==> v.cookie in arrays && v.cookie != h);
      stored := v;
      if ok {
        if v.Arr? {
          var moved := next;
          arrays := (arrays - {v.cookie})[moved := arrays[v.cookie]];
          next := next + 1;
          stored := Arr(moved);
        }
        arrays := arrays[h := arrays[h][key := stored]];
      }
    }
  }
}
