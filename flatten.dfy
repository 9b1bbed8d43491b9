/**
  do_deep_flat_array and do_deep_flat_array_idx.

  Both walk the source tree with the worklist, breadth first, and write into
  the destination array under the keys 0, 1, 2, ... (`dest_idx`): the first
  writes every scalar value, the second the index of every element,
  subarray elements included. Neither deletes what the destination already
  held. Each is proved to leave the host exactly as the run `Flatten` of the
  traversal module says, and the lemmas there say what that run is.
*/
module Flattening {
  import opened Values
  import opened HostApi
  import opened Worklists
  import opened Traversal

  /** Both array arguments are present and are arrays; the destination is a live array. */
  predicate ArgsOk(nargs: int, source: AwkValue<SrcArray>, dest: DValue, arrays: map<Id, map<DValue, DValue>>) {
    nargs >= 2 && source.Arr? && dest.Arr? && dest.cookie in arrays
  }

  /**
    The shared body of the two flatten routines. The result is 1 exactly
    when the arguments are right and the tree is well formed; the
    destination then holds, on top of what it held, the run's output under
    the dense keys 0..N-1 (after a failure, the part written before it).
    No other array changes and every snapshot but possibly one is released.
  */
  method DeepFlatten(host: Host, mode: Mode, nargs: int, source: AwkValue<SrcArray>, dest: DValue)
    returns (result: int)
    requires host.Valid()
    modifies host
    ensures host.Valid() && host.next == old(host.next)
    ensures result == 1 || result == 0
    ensures result == 1 <==> ArgsOk(nargs, source, dest, old(host.arrays)) && WellFormed(mode, source.cookie)
    ensures ArgsOk(nargs, source, dest, old(host.arrays)) ==>
      host.arrays == old(host.arrays)[dest.cookie := old(host.arrays)[dest.cookie] + Dense(Flatten(mode, source.cookie).out)]
    ensures !ArgsOk(nargs, source, dest, old(host.arrays)) ==> host.arrays == old(host.arrays)
    ensures result == 1 ==>
      host.arrays[dest.cookie] == old(host.arrays)[dest.cookie] + Dense(ConcatOut(mode, Bfs([source.cookie])))
    ensures SnapshotsReleased(old(host.open), host.open, result == 1)
  {
    result := 0;
    if nargs < 2 {
      return;
    }
    var wl := new Worklist<SrcArray>.Alloc();
    if !source.Arr? {
      return;
    }
    if !(dest.Arr? && dest.cookie in host.arrays) {
      return;
    }
    var ok := FlattenInto(host, wl, mode, source.cookie, dest.cookie);
    FlattenSpec(mode, source.cookie);
    if ok {
      result := 1;
    }
  }

  /**
    The traversal proper, once both arguments are known: queue the source
    array, run the worklist loop, then release the snapshots of the arrays
    whose walk completed.
  */
  method FlattenInto(host: Host, wl: Worklist<SrcArray>, mode: Mode, root: SrcArray, destArray: Id) returns (ok: bool)
    requires host.Valid() && destArray in host.arrays
    requires wl.Valid() && wl.items == []
    modifies host, wl, wl.list
    ensures host.Valid() && host.next == old(host.next)
    ensures Flatten(mode, root).ok == ok
    ensures host.arrays == old(host.arrays)[destArray := old(host.arrays)[destArray] + Dense(Flatten(mode, root).out)]
    ensures SnapshotsReleased(old(host.open), host.open, ok)
  {
    ghost var next0 := host.next;
    wl.Push(root);
    assert wl.items == [root];
    ghost var open0 := host.open;
    assert host.next == next0;
    var idx;
    ghost var written, leaked;
    ok, idx, written, leaked := Walk(host, wl, mode, destArray);
    assert host.next == next0;
    ghost var taken := multiset(wl.items[..idx]);
    ghost var openWalked := host.open;
    ReleaseSnapshots(host, wl, idx);
    LeakBound(open0, taken, leaked, ok, openWalked, host.open);
    assert host.next == next0;
  }

  /**
    The worklist loop (`do { ... } while (idx < size)`): visit the pending
    arrays in order until the worklist is exhausted or a step fails. Its
    effect is the run `Drain` of the initial worklist; `idx` counts the
    arrays whose walk completed, and each of them holds one open snapshot,
    as does the array whose walk failed, if any (`leaked`).
  */
  method Walk(host: Host, wl: Worklist<SrcArray>, mode: Mode, destArray: Id)
    returns (ok: bool, idx: nat, ghost written: seq<DValue>, ghost leaked: multiset<SrcArray>)
    requires host.Valid() && wl.Valid() && destArray in host.arrays
    modifies host, wl, wl.list
    ensures host.Valid() && host.next == old(host.next)
    ensures wl.Valid() && (wl.list == old(wl.list) || fresh(wl.list))
    ensures Drain(mode, old(wl.items), []) == Run(ok, written)
    ensures host.arrays == old(host.arrays)[destArray := old(host.arrays)[destArray] + Dense(written)]
    ensures idx <= wl.size
    ensures host.open == old(host.open) + multiset(wl.items[..idx]) + leaked
    ensures |leaked| <= 1 && (ok ==> leaked == multiset{})
  {
    ghost var run := Drain(mode, wl.items, []);
    ghost var a0 := host.arrays;
    ghost var d0 := host.arrays[destArray];
    ghost var open0 := host.open;
    written, leaked := [], multiset{};
    assert d0 + Dense(written) == d0;
    assert wl.items[0..] == wl.items;

    idx := 0;
    var destIdx := 0;
    ok := true;
    while ok && idx < wl.size
      invariant wl.Valid() && (wl.list == old(wl.list) || fresh(wl.list))
      invariant idx <= wl.size
      invariant destIdx == |written|
      invariant host.Valid() && host.next == old(host.next)
      invariant host.arrays == a0[destArray := d0 + Dense(written)]
      invariant ok ==> run == Drain(mode, wl.items[idx..], written)
      invariant !ok ==> run == Run(false, written)
      invariant host.open == open0 + multiset(wl.items[..idx]) + leaked
      invariant |leaked| <= 1 && (ok ==> leaked == multiset{})
      decreases if ok then SumSize(wl.items[idx..]) + 1 else 0
    {
      ghost var items := wl.items;
      ghost var added;
      ok, destIdx, written, added, leaked := VisitArray(host, wl, mode, destArray, idx, destIdx, items, a0, d0, written, open0);
      AppendSlices(items, added, idx);
      AppendSlices(items, added, idx + 1);
      if ok {
        idx := idx + 1;
      }
    }
    if ok {
      assert wl.items[idx..] == [];
    }
  }

  /**
    One turn of the worklist loop: make room in the buffer when it is nearly
    full, take a snapshot of the array at `idx` (the host refuses an empty
    one) and walk its elements.
  */
  method VisitArray(host: Host, wl: Worklist<SrcArray>, mode: Mode, destArray: Id, idx: nat, destIdx0: nat,
                    ghost items0: seq<SrcArray>, ghost a0: map<Id, map<DValue, DValue>>, ghost d0: map<DValue, DValue>,
                    ghost written0: seq<DValue>, ghost open0: multiset<SrcArray>)
    returns (ok: bool, destIdx: nat, ghost written: seq<DValue>, ghost added: seq<SrcArray>, ghost leaked: multiset<SrcArray>)
    requires host.Valid() && wl.Valid() && wl.items == items0 && idx < |items0|
    requires destIdx0 == |written0| && destArray in a0
    requires host.arrays == a0[destArray := d0 + Dense(written0)]
    requires host.open == open0 + multiset(items0[..idx])
    modifies host, wl, wl.list
    ensures host.Valid() && host.next == old(host.next)
    ensures wl.Valid() && (wl.list == old(wl.list) || fresh(wl.list))
    ensures wl.items == items0 + added
    ensures destIdx == |written|
    ensures host.arrays == a0[destArray := d0 + Dense(written)]
    ensures ok ==> Drain(mode, items0[idx..], written0) == Drain(mode, items0[idx + 1..] + added, written)
    ensures ok ==> SumSize(items0[idx + 1..] + added) < SumSize(items0[idx..])
    ensures !ok ==> Drain(mode, items0[idx..], written0) == Run(false, written)
    ensures ok ==> host.open == open0 + multiset(items0[..idx + 1]) && leaked == multiset{}
    ensures !ok ==> host.open == open0 + multiset(items0[..idx]) + leaked && |leaked| <= 1
  {
    wl.GrowIfNearlyFull();
    var cur := wl.At(idx);
    ghost var pending := items0[idx + 1..];
    assert items0[idx..] == [cur] + pending;
    var snap := host.FlattenArrayTyped(cur);
    if snap.None? {
      return false, destIdx0, written0, [], multiset{};
    }
    TakeOne(items0, idx);
    ok, destIdx, written, added := FlattenElements(host, wl, mode, destArray, cur, destIdx0, pending, a0, d0, written0);
    leaked := if ok then multiset{} else multiset{cur};
  }

  /** The snapshots of the first `idx + 1` items are those of the first `idx` and one more. */
  lemma TakeOne<T>(s: seq<T>, idx: nat)
    requires idx < |s|
    ensures multiset(s[..idx + 1]) == multiset(s[..idx]) + multiset{s[idx]}
  {
    assert s[..idx + 1] == s[..idx] + [s[idx]];
  }

  /** Appending to a sequence keeps its prefixes and extends its suffixes. */
  lemma AppendSlices<T>(s: seq<T>, t: seq<T>, k: nat)
    requires k <= |s|
    ensures (s + t)[..k] == s[..k]
    ensures (s + t)[k..] == s[k..] + t
    ensures (s + t)[..|s|] == s
  {
  }

  /**
    The element loop over the snapshot of `cur`: each subarray is appended
    to the worklist (`added` collects them), and each scalar value (by
    value) or each element's index (by key) is stored under the next dense
    key. The loop stops at the first element the mode cannot handle. Its
    effect is the run's `Scan` over `cur` with `pending` still queued.
  */
  method FlattenElements(host: Host, wl: Worklist<SrcArray>, mode: Mode, destArray: Id, cur: SrcArray, destIdx0: nat,
                         ghost pending: seq<SrcArray>, ghost a0: map<Id, map<DValue, DValue>>,
                         ghost d0: map<DValue, DValue>, ghost written0: seq<DValue>)
    returns (ok: bool, destIdx: nat, ghost written: seq<DValue>, ghost added: seq<SrcArray>)
    requires host.Valid() && wl.Valid()
    requires destIdx0 == |written0| && destArray in a0
    requires host.arrays == a0[destArray := d0 + Dense(written0)]
    modifies host`arrays, host`next, wl, wl.list
    ensures host.Valid() && host.next == old(host.next)
    ensures wl.Valid() && (wl.list == old(wl.list) || fresh(wl.list))
    ensures wl.items == old(wl.items) + added
    ensures destIdx == |written|
    ensures host.arrays == a0[destArray := d0 + Dense(written)]
    ensures ok ==> Scan(mode, cur, 0, pending, written0) == Drain(mode, pending + added, written)
    ensures !ok ==> Scan(mode, cur, 0, pending, written0) == Run(false, written)
    ensures ok ==> SumSize(pending + added) < SumSize(pending) + Size(cur)
  {
    written, added := written0, [];
    destIdx := destIdx0;
    ok := true;
    assert pending + added == pending;
    var i := 0;
    while i < |cur.elements|
      invariant wl.Valid() && (wl.list == old(wl.list) || fresh(wl.list))
      invariant wl.items == old(wl.items) + added
      invariant i <= |cur.elements|
      invariant destIdx == |written|
      invariant host.Valid() && host.next == old(host.next)
      invariant host.arrays == a0[destArray := d0 + Dense(written)]
      invariant Scan(mode, cur, 0, pending, written0) == Scan(mode, cur, i, pending + added, written)
      invariant SumSize(pending + added) + SizeFrom(cur, i) <= SumSize(pending) + SizeFrom(cur, 0)
    {
      var e := cur.elements[i];
      ScanStep(mode, cur, i, pending + added, written);
      ok, destIdx, written := FlattenElement(host, wl, mode, destArray, e, destIdx, a0, d0, written);
      if e.value.Arr? {
        assert pending + (added + [e.value.cookie]) == pending + added + [e.value.cookie];
        assert wl.items == old(wl.items) + (added + [e.value.cookie]);
        SumSizeAppend(pending + added, [e.value.cookie]);
        added := added + [e.value.cookie];
      }
      if !ok {
        return;
      }
      i := i + 1;
    }
  }

  /**
    One element of the loop body: a subarray value is appended to the
    worklist; a scalar value (by value) or the element's index (by key) is
    copied and stored under the next dense key. The step fails exactly on
    the elements the mode cannot handle; a subarray queued before a by-key
    failure stays queued.
  */
  method FlattenElement(host: Host, wl: Worklist<SrcArray>, mode: Mode, destArray: Id, e: Element, destIdx0: nat,
                        ghost a0: map<Id, map<DValue, DValue>>, ghost d0: map<DValue, DValue>, ghost written0: seq<DValue>)
    returns (ok: bool, destIdx: nat, ghost written: seq<DValue>)
    requires host.Valid() && wl.Valid()
    requires destIdx0 == |written0| && destArray in a0
    requires host.arrays == a0[destArray := d0 + Dense(written0)]
    modifies host`arrays, host`next, wl, wl.list
    ensures host.Valid() && host.next == old(host.next)
    ensures wl.Valid() && (wl.list == old(wl.list) || fresh(wl.list))
    ensures ok == ElemOk(mode, e)
    ensures e.value.Arr? ==> wl.items == old(wl.items) + [e.value.cookie]
    ensures !e.value.Arr? ==> wl.items == old(wl.items)
    ensures ok ==> written == written0 + Emit(mode, e)
    ensures !ok ==> written == written0
    ensures destIdx == |written|
    ensures host.arrays == a0[destArray := d0 + Dense(written)]
  {
    written := written0;
    destIdx := destIdx0;
    var v := CopyElement<SrcArray, Id>(e.value);
    if v.None? {
      if e.value.Arr? {
        wl.Push(e.value.cookie);
      } else {
        return false, destIdx, written;
      }
    }
    var out := v;
    if mode == ByKey {
      out := CopyElement<SrcArray, Id>(e.index);
      if out.None? {
        return false, destIdx, written;
      }
    }
    if out.Some? {
      assert !out.value.Arr?;
      var setOk, _ := host.SetArrayElement(destArray, IndexKey(destIdx), out.value);
      if !setOk {
        // cannot happen: the destination stays live and a copy is never an array
        assert false;
      }
      DenseSnoc(written, out.value);
      MergeUpdate(d0, Dense(written), IndexKey(destIdx), out.value);
      written := written + [out.value];
      destIdx := destIdx + 1;
    } else {
      assert Emit(mode, e) == [];
    }
    ok := true;
  }

  /** Updating a merged map updates its right-hand side. */
  lemma MergeUpdate<K, V>(left: map<K, V>, right: map<K, V>, k: K, v: V)
    ensures (left + right)[k := v] == left + right[k := v]
  {
  }

  /** The cleanup loop: release the snapshots of worklist items 0..idx-1, once each. */
  method ReleaseSnapshots(host: Host, wl: Worklist<SrcArray>, idx: nat)
    requires wl.Valid() && idx <= wl.size
    modifies host`open
    ensures host.open == old(host.open) - multiset(wl.items[..idx])
  {
    ghost var items := wl.items;
    ghost var open0 := host.open;
    var j := 0;
    while j < idx
      invariant j <= idx
      invariant host.open == open0 - multiset(items[..j])
      invariant wl.Valid() && wl.items == items
    {
      var x := wl.At(j);
      ReleaseOne(open0, items, j);
      var _ := host.ReleaseFlattenedArray(x);
      j := j + 1;
    }
  }

  /** Releasing the next item of `s` extends the released prefix by one. */
  lemma ReleaseOne<T>(open0: multiset<T>, s: seq<T>, j: nat)
    requires j < |s|
    ensures (open0 - multiset(s[..j])) - multiset{s[j]} == open0 - multiset(s[..j + 1])
  {
    assert s[..j + 1] == s[..j] + [s[j]];
  }

  /**
    After the walk, the open snapshots are the ones held before, those taken
    for the completed arrays, and at most one leaked (none on success);
    releasing those taken leaves at most the leaked one.
  */
  lemma LeakBound(open0: multiset<SrcArray>, taken: multiset<SrcArray>, leaked: multiset<SrcArray>, ok: bool,
                  walked: multiset<SrcArray>, released: multiset<SrcArray>)
    requires walked == open0 + taken + leaked && released == walked - taken
    requires |leaked| <= 1 && (ok ==> leaked == multiset{})
    ensures SnapshotsReleased(open0, released, ok)
  {
    assert released == open0 + leaked;
    assert released - open0 == leaked;
  }

  // ----- the buffer overrun of the check as written -----

  /** When every element from `i` on holds a subarray, each of them is queued. */
  lemma {:induction false} AllSubarrays(a: SrcArray, i: nat)
    requires i <= |a.elements|
    requires forall j | i <= j < |a.elements| :: a.elements[j].value.Arr?
    ensures |SubsFrom(a, i)| == |a.elements| - i
    decreases |a.elements| - i
  {
    if i < |a.elements| {
      AllSubarrays(a, i + 1);
    }
  }

  /**
    The overrun on a source tree. The first iteration of a walk starts with
    the root as the only item of a buffer with room for 10, checks the
    capacity once, and appends one item per direct subarray of the root. As
    written, those appends stay inside the buffer exactly when the root has
    at most nine direct subarrays: a root whose ten elements are all
    subarrays writes slot 10 of 10.
  */
  lemma FirstIterationOverflow(root: SrcArray)
    ensures AsWrittenInBounds(1, 10, |SubsFrom(root, 0)|) <==> |SubsFrom(root, 0)| <= 9
    ensures |root.elements| == 10 && (forall j | 0 <= j < 10 :: root.elements[j].value.Arr?) ==>
      !AsWrittenInBounds(1, 10, |SubsFrom(root, 0)|)
  {
    if |root.elements| == 10 && (forall j | 0 <= j < 10 :: root.elements[j].value.Arr?) {
      AllSubarrays(root, 0);
    }
  }

  /** do_deep_flat_array: flatten the values of the source tree into the destination. */
  method DeepFlatArray(host: Host, nargs: int, source: AwkValue<SrcArray>, dest: DValue) returns (result: int)
    requires host.Valid()
    modifies host
    ensures host.Valid() && host.next == old(host.next)
    ensures result == 1 <==> ArgsOk(nargs, source, dest, old(host.arrays)) && WellFormed(ByValue, source.cookie)
    ensures ArgsOk(nargs, source, dest, old(host.arrays)) ==>
      host.arrays == old(host.arrays)[dest.cookie := old(host.arrays)[dest.cookie] + Dense(Flatten(ByValue, source.cookie).out)]
    ensures !ArgsOk(nargs, source, dest, old(host.arrays)) ==> host.arrays == old(host.arrays)
    ensures result == 1 ==>
      host.arrays[dest.cookie] == old(host.arrays)[dest.cookie] + Dense(ConcatOut(ByValue, Bfs([source.cookie])))
    ensures SnapshotsReleased(old(host.open), host.open, result == 1)
  {
    result := DeepFlatten(host, ByValue, nargs, source, dest);
  }

  /** do_deep_flat_array_idx: flatten the indices of the source tree into the destination. */
  method DeepFlatArrayIdx(host: Host, nargs: int, source: AwkValue<SrcArray>, dest: DValue) returns (result: int)
    requires host.Valid()
    modifies host
    ensures host.Valid() && host.next == old(host.next)
    ensures result == 1 <==> ArgsOk(nargs, source, dest, old(host.arrays)) && WellFormed(ByKey, source.cookie)
    ensures ArgsOk(nargs, source, dest, old(host.arrays)) ==>
      host.arrays == old(host.arrays)[dest.cookie := old(host.arrays)[dest.cookie] + Dense(Flatten(ByKey, source.cookie).out)]
    ensures !ArgsOk(nargs, source, dest, old(host.arrays)) ==> host.arrays == old(host.arrays)
    ensures result == 1 ==>
      host.arrays[dest.cookie] == old(host.arrays)[dest.cookie] + Dense(ConcatOut(ByKey, Bfs([source.cookie])))
    ensures SnapshotsReleased(old(host.open), host.open, result == 1)
  {
    result := DeepFlatten(host, ByKey, nargs, source, dest);
  }
}
