/**
  do_copy_array: a deep copy of the source tree into the destination array.

  The methods walk the worklist buffer and call the host exactly as the
  routine does; each is proved to follow the run `CopyDrain` / `CopyScan`
  step for step. What that run achieves (the copy, the frame, and that it
  succeeds exactly when the by-key flatten does) is `CopyRunCorrect`.
*/
module Copying {
  import opened Values
  import opened HostApi
  import opened Worklists
  import opened Traversal
  import opened Flattening
  import opened CopySpec
  import opened CopyProof

  /**
    do_copy_array. The result is 1 exactly when both arguments are arrays
    and every array of the source tree is non-empty and holds only elements
    with a scalar index and a scalar or array value, which is when the
    by-key flatten succeeds. Then the destination holds a copy of the
    source tree on top of what it held, and every subarray of the copy is
    an array created by the call. Arrays that existed before, other than
    the destination, are untouched either way, and the arrays the call
    created are each attached in exactly one place; every snapshot but
    possibly one is released.
  */
  method CopyArray(host: Host, nargs: int, source: AwkValue<SrcArray>, dest: DValue) returns (result: int)
    requires host.Valid()
    requires RefsBelow(host.arrays, host.next)
    requires source.Arr? ==> UniqueKeys(source.cookie)
    modifies host
    ensures host.Valid() && RefsBelow(host.arrays, host.next)
    ensures result == 1 || result == 0
    ensures result == 1 <==> ArgsOk(nargs, source, dest, old(host.arrays)) && WellFormed(ByKey, source.cookie)
    ensures result == 1 ==> CopiedInto(source.cookie, dest.cookie, old(host.arrays)[dest.cookie], host.arrays, old(host.next))
    ensures AttachedOnce(host.arrays, old(host.next))
    ensures ArgsOk(nargs, source, dest, old(host.arrays)) ==>
      && dest.cookie in host.arrays
      && (forall h | h in old(host.arrays) && h != dest.cookie :: h in host.arrays && host.arrays[h] == old(host.arrays)[h])
      && (forall h | h in host.arrays && h !in old(host.arrays) :: old(host.next) <= h)
    ensures !ArgsOk(nargs, source, dest, old(host.arrays)) ==> host.arrays == old(host.arrays)
    ensures SnapshotsReleased(old(host.open), host.open, result == 1)
  {
    result := 0;
    if nargs < 2 {
      return;
    }
    var wl := new Worklist<Pending>.Alloc();
    if !source.Arr? {
      return;
    }
    if !(dest.Arr? && dest.cookie in host.arrays) {
      return;
    }
    var ok := CopyInto(host, wl, source.cookie, dest.cookie);
    if ok {
      result := 1;
    }
  }

  /**
    The copy proper, once both arguments are known: it ends in the state
    the run `CopyRun` ends in, and so has what `CopyRunCorrect` proves of
    that run.
  */
  method CopyInto(host: Host, wl: Worklist<Pending>, root: SrcArray, d: Id) returns (ok: bool)
    requires host.Valid() && d in host.arrays && UniqueKeys(root) && RefsBelow(host.arrays, host.next)
    requires wl.Valid() && wl.items == []
    modifies host, wl, wl.list
    ensures host.Valid() && d in host.arrays && RefsBelow(host.arrays, host.next)
    ensures var r := CopyRun(root, d, Store(old(host.arrays), old(host.next)));
      ok == r.ok && host.arrays == r.store.arrays && host.next == r.store.next
    ensures ok == WellFormed(ByKey, root)
    ensures ok ==> CopiedInto(root, d, old(host.arrays)[d], host.arrays, old(host.next))
    ensures AttachedOnce(host.arrays, old(host.next))
    ensures forall h | h in old(host.arrays) && h != d :: h in host.arrays && host.arrays[h] == old(host.arrays)[h]
    ensures forall h | h in host.arrays && h !in old(host.arrays) :: old(host.next) <= h
    ensures SnapshotsReleased(old(host.open), host.open, ok)
  {
    ghost var st := Store(host.arrays, host.next);
    ghost var open0 := host.open;
    CopyRunCorrect(root, d, st);
    wl.Push(Pending(root, d));
    assert wl.items == [Pending(root, d)];
    var idx;
    ghost var leaked;
    ok, idx, leaked := CopyWalk(host, wl);
    ghost var taken := multiset(Sources(wl.items)[..idx]);
    ghost var openWalked := host.open;
    ReleasePending(host, wl, idx);
    LeakBound(open0, taken, leaked, ok, openWalked, host.open);
  }

  /**
    The worklist loop: walk the queued pairs in order until the worklist is
    exhausted or a step fails. It ends where `CopyDrain` from the first item
    ends: the same verdict, worklist, number of items walked and arrays.
  */
  method CopyWalk(host: Host, wl: Worklist<Pending>) returns (ok: bool, idx: nat, ghost leaked: multiset<SrcArray>)
    requires host.Valid() && wl.Valid()
    modifies host, wl, wl.list
    ensures host.Valid() && wl.Valid() && (wl.list == old(wl.list) || fresh(wl.list))
    ensures idx <= |wl.items|
    ensures CopyDrain(old(wl.items), 0, Store(old(host.arrays), old(host.next)))
            == Outcome(ok, wl.items, idx, Store(host.arrays, host.next))
    ensures host.open == old(host.open) + multiset(Sources(wl.items)[..idx]) + leaked
    ensures |leaked| <= 1 && (ok ==> leaked == multiset{})
  {
    ghost var run := CopyDrain(wl.items, 0, Store(host.arrays, host.next));
    ghost var open0 := host.open;
    leaked := multiset{};
    idx := 0;
    ok := true;
    while ok && idx < wl.size
      invariant host.Valid() && wl.Valid() && (wl.list == old(wl.list) || fresh(wl.list))
      invariant idx <= |wl.items|
      invariant ok ==> run == CopyDrain(wl.items, idx, Store(host.arrays, host.next))
      invariant !ok ==> run == Outcome(false, wl.items, idx, Store(host.arrays, host.next))
      invariant host.open == open0 + multiset(Sources(wl.items)[..idx]) + leaked
      invariant |leaked| <= 1 && (ok ==> leaked == multiset{})
      decreases if ok then SumSize(Sources(wl.items[idx..])) + 1 else 0
    {
      ghost var items, open1 := wl.items, host.open;
      ok := VisitPending(host, wl, idx);
      SourcesPrefix(items, wl.items, idx);
      if ok {
        SourcesPrefix(items, wl.items, idx + 1);
        TakeOne(Sources(items), idx);
        idx := idx + 1;
      } else {
        leaked := host.open - open1;
      }
    }
  }

  /** Prefixes of the worklist's sources stay as they were while the worklist grows. */
  lemma SourcesPrefix(s: seq<Pending>, t: seq<Pending>, k: nat)
    requires s <= t && k <= |s|
    ensures Sources(t)[..k] == Sources(s)[..k]
  {
    assert forall j | 0 <= j < k :: Sources(t)[..k][j] == Sources(s)[..k][j];
  }

  /**
    One turn of the worklist loop: make room when the buffer is nearly
    full, take a snapshot of the current source array (the host refuses an
    empty one) and copy its elements. It takes `CopyDrain` from item `idx`
    one item further, or to where it stops.
  */
  method VisitPending(host: Host, wl: Worklist<Pending>, idx: nat) returns (ok: bool)
    requires host.Valid() && wl.Valid() && idx < |wl.items|
    modifies host, wl, wl.list
    ensures host.Valid() && wl.Valid() && (wl.list == old(wl.list) || fresh(wl.list))
    ensures old(wl.items) <= wl.items
    ensures ok ==> CopyDrain(old(wl.items), idx, Store(old(host.arrays), old(host.next)))
                   == CopyDrain(wl.items, idx + 1, Store(host.arrays, host.next))
    ensures ok ==> SumSize(Sources(wl.items[idx + 1..])) < SumSize(Sources(old(wl.items)[idx..]))
    ensures !ok ==> CopyDrain(old(wl.items), idx, Store(old(host.arrays), old(host.next)))
                    == Outcome(false, wl.items, idx, Store(host.arrays, host.next))
    ensures host.open == old(host.open) + (if old(wl.items)[idx].source.elements == [] then multiset{}
                                           else multiset{old(wl.items)[idx].source})
    ensures ok ==> old(wl.items)[idx].source.elements != []
  {
    ghost var items0 := wl.items;
    wl.GrowIfNearlyFull();
    var cur := wl.At(idx);
    var snap := host.FlattenArrayTyped(cur.source);
    if snap.None? {
      return false;
    }
    SumSizeSplit(items0, idx);
    ok := CopyElements(host, wl, idx);
  }

  /**
    The element loop for item `pos`: copy each element of its source array
    into its destination, in snapshot order, stopping at the first element
    that cannot be copied. It is `CopyScan` over that item: on success it
    leaves the run at the next item, on failure where the run stops.
  */
  method CopyElements(host: Host, wl: Worklist<Pending>, pos: nat) returns (ok: bool)
    requires host.Valid() && wl.Valid() && pos < |wl.items|
    modifies host`arrays, host`next, wl, wl.list
    ensures host.Valid() && wl.Valid() && (wl.list == old(wl.list) || fresh(wl.list))
    ensures old(wl.items) <= wl.items
    ensures ok ==> CopyScan(old(wl.items), pos, 0, Store(old(host.arrays), old(host.next)))
                   == CopyDrain(wl.items, pos + 1, Store(host.arrays, host.next))
    ensures !ok ==> CopyScan(old(wl.items), pos, 0, Store(old(host.arrays), old(host.next)))
                    == Outcome(false, wl.items, pos, Store(host.arrays, host.next))
    ensures ok ==> SumSize(Sources(wl.items[pos + 1..]))
                   <= SumSize(Sources(old(wl.items)[pos + 1..])) + SizeFrom(old(wl.items)[pos].source, 0)
  {
    ghost var items0 := wl.items;
    ghost var run := CopyScan(wl.items, pos, 0, Store(host.arrays, host.next));
    var cur := wl.At(pos);
    ok := true;
    var i := 0;
    while i < |cur.source.elements|
      invariant host.Valid() && wl.Valid() && (wl.list == old(wl.list) || fresh(wl.list))
      invariant items0 <= wl.items && i <= |cur.source.elements| && wl.items[pos] == cur
      invariant run == CopyScan(wl.items, pos, i, Store(host.arrays, host.next))
      invariant SumSize(Sources(wl.items[pos + 1..])) + SizeFrom(cur.source, i)
                <= SumSize(Sources(items0[pos + 1..])) + SizeFrom(cur.source, 0)
    {
      ghost var items := wl.items;
      var e := cur.source.elements[i];
      ghost var r := ElementStep(Store(host.arrays, host.next), cur, e);
      ok := CopyOne(host, wl, cur, e);
      if !ok {
        return;
      }
      ScanMeasure(items, pos, i, r.queued);
      i := i + 1;
    }
  }

  /**
    One element: copy the index (failing if it is not a scalar), then the
    value. A scalar is stored under the key; a subarray gets a new empty
    array, attached under the key (which moves it to a new handle, read
    back from the stored value) and queued with the source subarray. The
    effect is `ElementStep`, failures included.
  */
  method CopyOne(host: Host, wl: Worklist<Pending>, cur: Pending, e: Element) returns (ok: bool)
    requires host.Valid() && wl.Valid()
    modifies host`arrays, host`next, wl, wl.list
    ensures host.Valid() && wl.Valid() && (wl.list == old(wl.list) || fresh(wl.list))
    ensures var r := ElementStep(Store(old(host.arrays), old(host.next)), cur, e);
      && ok == r.ok
      && wl.items == old(wl.items) + r.queued
      && host.arrays == r.store.arrays && host.next == r.store.next
  {
    var index := CopyElement<SrcArray, Id>(e.index);
    if index.None? {
      return false;
    }
    var value := CopyElement<SrcArray, Id>(e.value);
    if value.Some? {
      var stored;
      ok, stored := host.SetArrayElement(cur.dest, index.value, value.value);
    } else if e.value.Arr? {
      ghost var arrays0 := host.arrays;
      var created := host.CreateArray();
      var stored;
      ok, stored := host.SetArrayElement(cur.dest, index.value, Arr(created));
      if ok {
        assert created !in arrays0 && arrays0[created := map[]] - {created} == arrays0;
        wl.Push(Pending(e.value.cookie, stored.cookie));
      }
    } else {
      ok := false;
    }
  }

  /** The cleanup loop: release the snapshots of the first `idx` source arrays, once each. */
  method ReleasePending(host: Host, wl: Worklist<Pending>, idx: nat)
    requires wl.Valid() && idx <= wl.size
    modifies host`open
    ensures host.open == old(host.open) - multiset(Sources(wl.items)[..idx])
  {
    ghost var sources := Sources(wl.items);
    ghost var open0 := host.open;
    var j := 0;
    while j < idx
      invariant j <= idx
      invariant host.open == open0 - multiset(sources[..j])
    {
      var item := wl.At(j);
      ReleaseOne(open0, sources, j);
      var _ := host.ReleaseFlattenedArray(item.source);
      j := j + 1;
    }
  }
}
