/**
  What do_copy_array computes, as functions on source trees and the
  destination arrays.

  The worklist holds pairs of a source array and the destination array it
  is copied into, starting with the two arguments. Each element of the
  current source array is copied under the copy of its index: a scalar
  value as its copy, a subarray as a new, empty destination array that is
  attached under that key and queued together with the source subarray.
  Keys the destination already held and the source does not have keep
  their values.

  `CopyDrain` and `CopyScan` follow that loop step by step, on the state
  `Store`; `MirrorsExact` and `CopiedInto` say what a finished copy looks
  like without mentioning the worklist.
*/
module CopySpec {
  import opened Values
  import opened HostApi
  import opened Traversal

  /** A worklist item: a source array and the destination it is copied into. */
  datatype Pending = Pending(source: SrcArray, dest: Id)

  /** The source arrays of the worklist, in order. */
  function Sources(items: seq<Pending>): (r: seq<SrcArray>)
    ensures |r| == |items|
    ensures forall j | 0 <= j < |items| :: r[j] == items[j].source
  {
    if items == [] then [] else [items[0].source] + Sources(items[1..])
  }

  lemma SourcesAppend(s: seq<Pending>, t: seq<Pending>)
    ensures Sources(s + t) == Sources(s) + Sources(t)
  {
    assert forall j | 0 <= j < |s + t| :: Sources(s + t)[j] == (Sources(s) + Sources(t))[j];
  }

  lemma SourcesSnoc(s: seq<Pending>, x: Pending)
    ensures Sources(s + [x]) == Sources(s) + [x.source]
  {
    SourcesAppend(s, [x]);
    assert Sources([x]) == [x.source];
  }

  // ----- keys and values of the copy -----

  /** The destination key of an element: the copy of its index. */
  function KeyOf(e: Element): DValue
    requires IsScalar(e.index)
  {
    CopyElement<SrcArray, Id>(e.index).value
  }

  /** The destination value of a scalar element: the copy of its value. */
  function ValueOf(e: Element): DValue
    requires IsScalar(e.value)
  {
    CopyElement<SrcArray, Id>(e.value).value
  }

  /** The keys written for elements `0..n-1` of `a` (those with a scalar index). */
  function KeysUpTo(a: SrcArray, n: nat): set<DValue>
    requires n <= |a.elements|
  {
    if n == 0 then {}
    else KeysUpTo(a, n - 1) + (if IsScalar(a.elements[n - 1].index) then {KeyOf(a.elements[n - 1])} else {})
  }

  /** The keys a complete copy of `a` writes. */
  function CopiedKeys(a: SrcArray): set<DValue> {
    KeysUpTo(a, |a.elements|)
  }

  /** No two elements of one array share an index. */
  predicate DistinctIndices(a: SrcArray) {
    forall i, j | 0 <= i < j < |a.elements| :: a.elements[i].index != a.elements[j].index
  }

  /**
    Every array of the tree has distinct indices, as the host's arrays do:
    a snapshot lists each key of the array once.
  */
  predicate UniqueKeys(a: SrcArray)
    decreases a
  {
    && DistinctIndices(a)
    && forall i | 0 <= i < |a.elements| :: a.elements[i].value.Arr? ==> UniqueKeys(a.elements[i].value.cookie)
  }

  // ----- what a finished copy looks like -----

  /**
    The destination `h` holds a copy of `a` and nothing else: one key per
    element, every scalar copied, every subarray an array created by the
    copy (a handle at or above `lo`) that again holds a copy of it.
  */
  ghost predicate MirrorsExact(a: SrcArray, h: Id, arrays: map<Id, map<DValue, DValue>>, lo: Id)
    decreases a, 2
  {
    h in arrays && arrays[h].Keys == CopiedKeys(a) && MirrorsElems(a, arrays[h], arrays, lo)
  }

  /** Every element of `a` is copied into `m`. */
  ghost predicate MirrorsElems(a: SrcArray, m: map<DValue, DValue>, arrays: map<Id, map<DValue, DValue>>, lo: Id)
    decreases a, 1
  {
    forall i | 0 <= i < |a.elements| :: ElemMirrored(a, i, m, arrays, lo)
  }

  /**
    Element `i` of `a` is copied into `m`: its index copies to a key of `m`,
    under which `m` holds the copy of a scalar value, or a newly created
    destination array holding a copy of a subarray value.
  */
  ghost predicate ElemMirrored(a: SrcArray, i: nat, m: map<DValue, DValue>, arrays: map<Id, map<DValue, DValue>>, lo: Id)
    decreases a, 0
  {
    && i < |a.elements|
    && ElemOk(ByKey, a.elements[i])
    && KeyOf(a.elements[i]) in m
    && (IsScalar(a.elements[i].value) ==> m[KeyOf(a.elements[i])] == ValueOf(a.elements[i]))
    && (a.elements[i].value.Arr? ==>
          && m[KeyOf(a.elements[i])].Arr?
          && lo <= m[KeyOf(a.elements[i])].cookie
          && MirrorsExact(a.elements[i].value.cookie, m[KeyOf(a.elements[i])].cookie, arrays, lo))
  }

  /**
    The destination `d`, which held `d0`, now holds a copy of every element
    of `a` on top of it: its keys are the old ones and the copied ones, an
    old key the source does not have keeps its value, and the subarrays of
    the copy are arrays created at or above `lo`.
  */
  ghost predicate CopiedInto(a: SrcArray, d: Id, d0: map<DValue, DValue>, arrays: map<Id, map<DValue, DValue>>, lo: Id) {
    && d in arrays
    && arrays[d].Keys == d0.Keys + CopiedKeys(a)
    && (forall k | k in d0 && k !in CopiedKeys(a) :: arrays[d][k] == d0[k])
    && MirrorsElems(a, arrays[d], arrays, lo)
  }

  /**
    The arrays at or above `lo` (those the copy created) form a tree: each
    is stored in exactly one place, and that place is an array with a
    smaller handle. So no two subarrays of a copy share an array, and no
    copy contains itself.
  */
  ghost predicate AttachedOnce(arrays: map<Id, map<DValue, DValue>>, lo: Id) {
    && (forall h, k | h in arrays && k in arrays[h] && arrays[h][k].Arr? && lo <= arrays[h][k].cookie ::
          h < arrays[h][k].cookie)
    && (forall h, k, h', k' | h in arrays && k in arrays[h] && h' in arrays && k' in arrays[h'] &&
          arrays[h][k].Arr? && lo <= arrays[h][k].cookie && arrays[h][k] == arrays[h'][k'] ::
          h == h' && k == k')
  }

  /**
    In a copy that is a tree, two different subarray elements of one array
    hold two different arrays, both created by the copy and both with a
    handle above that of the array holding them.
  */
  lemma SubarraysDistinct(a: SrcArray, h: Id, arrays: map<Id, map<DValue, DValue>>, lo: Id, i: nat, j: nat)
    requires h in arrays && MirrorsElems(a, arrays[h], arrays, lo) && AttachedOnce(arrays, lo) && DistinctIndices(a)
    requires i < j < |a.elements| && a.elements[i].value.Arr? && a.elements[j].value.Arr?
    ensures var m := arrays[h];
      && ElemMirrored(a, i, m, arrays, lo) && ElemMirrored(a, j, m, arrays, lo)
      && m[KeyOf(a.elements[i])] != m[KeyOf(a.elements[j])]
      && h < m[KeyOf(a.elements[i])].cookie && lo <= m[KeyOf(a.elements[i])].cookie
      && h < m[KeyOf(a.elements[j])].cookie && lo <= m[KeyOf(a.elements[j])].cookie
  {
    assert ElemMirrored(a, i, arrays[h], arrays, lo) && ElemMirrored(a, j, arrays[h], arrays, lo);
    if KeyOf(a.elements[i]) == KeyOf(a.elements[j]) {
      CopyInjective<SrcArray, Id>(a.elements[i].index, a.elements[j].index);
    }
  }

  /** With distinct indices that all copy, a complete copy has one key per element. */
  lemma {:induction false} CopiedKeysCount(a: SrcArray, n: nat)
    requires n <= |a.elements| && DistinctIndices(a)
    requires forall i | 0 <= i < n :: IsScalar(a.elements[i].index)
    ensures |KeysUpTo(a, n)| == n
  {
    if n > 0 {
      CopiedKeysCount(a, n - 1);
      KeyNotEarlier(a, n - 1, n - 1);
    }
  }

  /** The key of element `i` is not among the keys of the elements before `n <= i`. */
  lemma {:induction false} KeyNotEarlier(a: SrcArray, i: nat, n: nat)
    requires n <= i < |a.elements| && DistinctIndices(a) && IsScalar(a.elements[i].index)
    ensures KeyOf(a.elements[i]) !in KeysUpTo(a, n)
  {
    if n > 0 {
      KeyNotEarlier(a, i, n - 1);
      var e := a.elements[n - 1];
      if IsScalar(e.index) && KeyOf(e) == KeyOf(a.elements[i]) {
        CopyInjective<SrcArray, Id>(e.index, a.elements[i].index);
      }
    }
  }

  // ----- the copy, step by step -----

  /** The part of the host state a copy changes: the destination arrays and the next free handle. */
  datatype Store = Store(arrays: map<Id, map<DValue, DValue>>, next: Id)

  /** What one element does: whether the loop goes on, what it queues, and the new state. */
  datatype StepResult = StepResult(ok: bool, queued: seq<Pending>, store: Store)

  /**
    One element `e` of the current item `cur`. The index must copy to a
    scalar. A scalar value is stored under it. A subarray value gets a new
    array (handle `next`), which storing moves to handle `next + 1`; that
    handle is queued with the source subarray. Any other value stops the
    loop, and so does a store into a destination that is not live (after
    the new array was created, when there is one).
  */
  function ElementStep(st: Store, cur: Pending, e: Element): (r: StepResult)
    ensures r.ok <==> ElemOk(ByKey, e) && cur.dest in st.arrays
    ensures r.queued == if r.ok && e.value.Arr? then [Pending(e.value.cookie, st.next + 1)] else []
    ensures !r.ok ==> r.store.arrays.Keys >= st.arrays.Keys && r.store.next >= st.next
  {
    if !IsScalar(e.index) then StepResult(false, [], st)
    else if IsScalar(e.value) then
      if cur.dest in st.arrays then
        StepResult(true, [], Store(st.arrays[cur.dest := st.arrays[cur.dest][KeyOf(e) := ValueOf(e)]], st.next))
      else
        StepResult(false, [], st)
    else if e.value.Arr? then
      if cur.dest in st.arrays then
        StepResult(true, [Pending(e.value.cookie, st.next + 1)],
                   Store(st.arrays[st.next + 1 := map[]][cur.dest := st.arrays[cur.dest][KeyOf(e) := Arr(st.next + 1)]],
                         st.next + 2))
      else
        StepResult(false, [], Store(st.arrays[st.next := map[]], st.next + 1))
    else
      StepResult(false, [], st)
  }

  /**
    Where a copy stops: whether it got to the end, the worklist, how many
    items were walked completely, and the final state.
  */
  datatype Outcome = Outcome(ok: bool, items: seq<Pending>, walked: nat, store: Store)

  /** The worklist loop from item `idx` on. */
  function CopyDrain(items: seq<Pending>, idx: nat, st: Store): Outcome
    requires idx <= |items|
    decreases SumSize(Sources(items[idx..])), 0
  {
    if idx == |items| then Outcome(true, items, idx, st)
    else if items[idx].source.elements == [] then Outcome(false, items, idx, st)
    else
      SumSizeSplit(items, idx);
      CopyScan(items, idx, 0, st)
  }

  /** The element loop of item `idx` from element `i` on, then the rest of the worklist. */
  function CopyScan(items: seq<Pending>, idx: nat, i: nat, st: Store): Outcome
    requires idx < |items| && i <= |items[idx].source.elements|
    decreases SumSize(Sources(items[idx + 1..])) + SizeFrom(items[idx].source, i), 1
  {
    if i == |items[idx].source.elements| then CopyDrain(items, idx + 1, st)
    else
      var r := ElementStep(st, items[idx], items[idx].source.elements[i]);
      if !r.ok then Outcome(false, items, idx, r.store)
      else
        ScanMeasure(items, idx, i, r.queued);
        CopyScan(items + r.queued, idx, i + 1, r.store)
  }

  /** do_copy_array's run from the two arguments. */
  function CopyRun(root: SrcArray, d: Id, st: Store): Outcome {
    CopyDrain([Pending(root, d)], 0, st)
  }

  lemma SumSizeSplit(items: seq<Pending>, idx: nat)
    requires idx < |items|
    ensures SumSize(Sources(items[idx..])) == Size(items[idx].source) + SumSize(Sources(items[idx + 1..]))
  {
    assert items[idx..] == [items[idx]] + items[idx + 1..];
    SourcesAppend([items[idx]], items[idx + 1..]);
    SumSizeAppend(Sources([items[idx]]), Sources(items[idx + 1..]));
  }

  /** The worklist after item `idx`, once `q` is queued. */
  lemma SourcesAfter(items: seq<Pending>, idx: nat, q: seq<Pending>)
    requires idx < |items|
    ensures (items + q)[idx] == items[idx]
    ensures Sources((items + q)[idx + 1..]) == Sources(items[idx + 1..]) + Sources(q)
  {
    assert (items + q)[idx + 1..] == items[idx + 1..] + q;
    SourcesAppend(items[idx + 1..], q);
  }

  /** Copying an element, and queuing its subarray if it has one, shrinks the work left. */
  lemma ScanMeasure(items: seq<Pending>, idx: nat, i: nat, q: seq<Pending>)
    requires idx < |items| && i < |items[idx].source.elements|
    requires q == [] || (items[idx].source.elements[i].value.Arr? && |q| == 1 && q[0].source == items[idx].source.elements[i].value.cookie)
    ensures SumSize(Sources((items + q)[idx + 1..])) + SizeFrom((items + q)[idx].source, i + 1)
          < SumSize(Sources(items[idx + 1..])) + SizeFrom(items[idx].source, i)
  {
    SourcesAfter(items, idx, q);
    SumSizeAppend(Sources(items[idx + 1..]), Sources(q));
    if q != [] {
      assert Sources(q) == [q[0].source];
    }
  }
}
