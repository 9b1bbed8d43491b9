/**
  Why the copy is right: an account of the worklist kept along the run of
  `CopyDrain`, and how it closes into `CopiedInto` at the end.

  During the run every queued item has a live destination of its own:
  the first is the destination argument, the others are arrays the run
  created (`Handles`). Items already walked have their destination filled
  (`Progress`, with `Partly` for the item being walked), items still
  waiting have theirs as they were queued, and arrays that existed before
  the run, other than the destination argument, are untouched (`Frame`).
*/
module CopyProof {
  import opened Values
  import opened HostApi
  import opened Traversal
  import opened CopySpec

  // ----- the loop's bookkeeping -----

  /** Element `i` of `a` is copied into `m`; a subarray's copy is a queued item (never the first). */
  ghost predicate ElemCopied(a: SrcArray, i: nat, m: map<DValue, DValue>, items: seq<Pending>) {
    && i < |a.elements|
    && ElemOk(ByKey, a.elements[i])
    && KeyOf(a.elements[i]) in m
    && (IsScalar(a.elements[i].value) ==> m[KeyOf(a.elements[i])] == ValueOf(a.elements[i]))
    && (a.elements[i].value.Arr? ==>
          && m[KeyOf(a.elements[i])].Arr?
          && exists j :: 1 <= j < |items| && items[j] == Pending(a.elements[i].value.cookie, m[KeyOf(a.elements[i])].cookie))
  }

  /** The first `n` elements of `a` are copied into `m`, which held `base` before. */
  ghost predicate Partly(a: SrcArray, m: map<DValue, DValue>, base: map<DValue, DValue>, items: seq<Pending>, n: nat) {
    && n <= |a.elements|
    && m.Keys == base.Keys + KeysUpTo(a, n)
    && (forall k | k in base && k !in KeysUpTo(a, n) :: m[k] == base[k])
    && (forall i | 0 <= i < n :: ElemCopied(a, i, m, items))
  }

  /** What item `j`'s destination held when it was queued. */
  function Base(j: nat, d0: map<DValue, DValue>): map<DValue, DValue> {
    if j == 0 then d0 else map[]
  }

  /**
    The destinations of the worklist: the first is `d`, the others were
    created during the copy (at or above `lo`); all are live and distinct.
  */
  ghost predicate Handles(items: seq<Pending>, arrays: map<Id, map<DValue, DValue>>, next: Id, d: Id, lo: Id) {
    && |items| >= 1 && items[0].dest == d && d < lo <= next
    && (forall h | h in arrays :: h < next)
    && (forall j | 0 <= j < |items| :: items[j].dest in arrays)
    && (forall j | 1 <= j < |items| :: lo <= items[j].dest)
    && (forall j, k | 0 <= j < k < |items| :: items[j].dest != items[k].dest)
    && (forall j | 0 <= j < |items| :: UniqueKeys(items[j].source))
  }

  /** Items before `done` are copied completely; items from `untouched` on still hold their base. */
  ghost predicate Progress(items: seq<Pending>, done: nat, untouched: nat, arrays: map<Id, map<DValue, DValue>>,
                           d0: map<DValue, DValue>) {
    && done <= untouched <= |items|
    && (forall j | 0 <= j < done :: ItemDone(items, j, arrays, d0))
    && (forall j | untouched <= j < |items| :: items[j].dest in arrays && arrays[items[j].dest] == Base(j, d0))
  }

  /** Item `j` is copied completely into its destination. */
  ghost predicate ItemDone(items: seq<Pending>, j: nat, arrays: map<Id, map<DValue, DValue>>, d0: map<DValue, DValue>) {
    && j < |items|
    && items[j].dest in arrays
    && Partly(items[j].source, arrays[items[j].dest], Base(j, d0), items, |items[j].source.elements|)
  }

  /** Arrays that existed before the copy, other than `d`, are untouched; new ones lie at or above `lo`. */
  ghost predicate Frame(a0: map<Id, map<DValue, DValue>>, arrays: map<Id, map<DValue, DValue>>, d: Id, lo: Id) {
    && d in a0
    && (forall h | h in a0 :: h < lo)
    && (forall h | h in a0 && h != d :: h in arrays && arrays[h] == a0[h])
    && (forall h | h in arrays && h !in a0 :: lo <= h)
  }

  // ----- the steps, as lemmas on the bookkeeping -----

  /**
    The state inside the element loop of item `pos`, before element `i`:
    the worklist and the destinations are in order, the items before `pos`
    are copied, the items after it are untouched, and the first `i`
    elements of the current item are copied.
  */
  ghost predicate Midway(items: seq<Pending>, pos: nat, i: nat, arrays: map<Id, map<DValue, DValue>>, next: Id, d: Id, lo: Id,
                         d0: map<DValue, DValue>, a0: map<Id, map<DValue, DValue>>) {
    && pos < |items|
    && Handles(items, arrays, next, d, lo) && Frame(a0, arrays, d, lo)
    && Progress(items, pos, pos + 1, arrays, d0)
    && items[pos].dest in arrays
    && Partly(items[pos].source, arrays[items[pos].dest], Base(pos, d0), items, i)
  }

  /** Entering the element loop of item `pos`. */
  lemma MidwayOpen(items: seq<Pending>, pos: nat, arrays: map<Id, map<DValue, DValue>>, next: Id, d: Id, lo: Id,
                   d0: map<DValue, DValue>, a0: map<Id, map<DValue, DValue>>)
    requires pos < |items| && Handles(items, arrays, next, d, lo) && Frame(a0, arrays, d, lo)
    requires Progress(items, pos, pos, arrays, d0)
    ensures Midway(items, pos, 0, arrays, next, d, lo, d0, a0)
  {
  }

  /** Leaving the element loop of item `pos` once all its elements are copied. */
  lemma MidwayClose(items: seq<Pending>, pos: nat, arrays: map<Id, map<DValue, DValue>>, next: Id, d: Id, lo: Id,
                    d0: map<DValue, DValue>, a0: map<Id, map<DValue, DValue>>)
    requires pos < |items| && Midway(items, pos, |items[pos].source.elements|, arrays, next, d, lo, d0, a0)
    ensures Handles(items, arrays, next, d, lo) && Frame(a0, arrays, d, lo)
    ensures Progress(items, pos + 1, pos + 1, arrays, d0)
  {
  }

  /** Copying scalar element `i` of the current item into `arrays'`. */
  lemma StepScalar(items: seq<Pending>, pos: nat, i: nat, arrays: map<Id, map<DValue, DValue>>, next: Id, d: Id, lo: Id,
                   d0: map<DValue, DValue>, a0: map<Id, map<DValue, DValue>>, arrays': map<Id, map<DValue, DValue>>)
    requires Midway(items, pos, i, arrays, next, d, lo, d0, a0)
    requires i < |items[pos].source.elements|
    requires ElemOk(ByKey, items[pos].source.elements[i]) && !items[pos].source.elements[i].value.Arr?
    requires
      var cur := items[pos];
      var e := cur.source.elements[i];
      arrays' == arrays[cur.dest := arrays[cur.dest][KeyOf(e) := ValueOf(e)]]
    ensures Midway(items, pos, i + 1, arrays', next, d, lo, d0, a0)
  {
    SetCurrent(items, pos, i, arrays, next, d, lo, d0, a0, ValueOf(items[pos].source.elements[i]));
  }

  /**
    Copying subarray element `i` of the current item: its destination is a
    new array at `next + 1`, attached under its key and queued.
  */
  lemma StepChild(items: seq<Pending>, pos: nat, i: nat, arrays: map<Id, map<DValue, DValue>>, next: Id, d: Id, lo: Id,
                  d0: map<DValue, DValue>, a0: map<Id, map<DValue, DValue>>,
                  items': seq<Pending>, arrays': map<Id, map<DValue, DValue>>)
    requires Midway(items, pos, i, arrays, next, d, lo, d0, a0)
    requires i < |items[pos].source.elements|
    requires ElemOk(ByKey, items[pos].source.elements[i]) && items[pos].source.elements[i].value.Arr?
    requires
      var cur := items[pos];
      var e := cur.source.elements[i];
      && items' == items + [Pending(e.value.cookie, next + 1)]
      && arrays' == arrays[next + 1 := map[]][cur.dest := arrays[cur.dest][KeyOf(e) := Arr(next + 1)]]
    ensures Midway(items', pos, i + 1, arrays', next + 2, d, lo, d0, a0)
  {
    var cur := items[pos];
    var child := Pending(cur.source.elements[i].value.cookie, next + 1);
    AddChild(items, pos, i, arrays, next, d, lo, d0, a0);
    assert items'[pos] == cur && items'[|items|] == child;
    assert arrays[next + 1 := map[]][cur.dest] == arrays[cur.dest];
    SetCurrent(items', pos, i, arrays[next + 1 := map[]], next + 2, d, lo, d0, a0, Arr(next + 1));
  }

  /**
    Storing the copy `v` of element `i` of the current item under its key
    extends the copied prefix by one and keeps every other account.
  */
  lemma SetCurrent(items: seq<Pending>, pos: nat, i: nat, arrays: map<Id, map<DValue, DValue>>, next: Id, d: Id, lo: Id,
                   d0: map<DValue, DValue>, a0: map<Id, map<DValue, DValue>>, v: DValue)
    requires Midway(items, pos, i, arrays, next, d, lo, d0, a0)
    requires i < |items[pos].source.elements| && ElemOk(ByKey, items[pos].source.elements[i])
    requires IsScalar(items[pos].source.elements[i].value) ==> v == ValueOf(items[pos].source.elements[i])
    requires items[pos].source.elements[i].value.Arr? ==>
      v.Arr? && exists j :: 1 <= j < |items| && items[j] == Pending(items[pos].source.elements[i].value.cookie, v.cookie)
    ensures
      var cur := items[pos];
      Midway(items, pos, i + 1, arrays[cur.dest := arrays[cur.dest][KeyOf(cur.source.elements[i]) := v]], next, d, lo, d0, a0)
  {
    var cur := items[pos];
    var m := arrays[cur.dest][KeyOf(cur.source.elements[i]) := v];
    assert UniqueKeys(cur.source);
    PartlyStep(cur.source, arrays[cur.dest], Base(pos, d0), items, i, v);
    HandlesKeep(items, arrays, arrays[cur.dest := m], next, d, lo);
    FrameSet(a0, arrays, d, lo, cur.dest, m);
    assert forall j | 0 <= j < |items| && j != pos :: items[j].dest != cur.dest by {
      assert forall j, k | 0 <= j < k < |items| :: items[j].dest != items[k].dest;
    }
    ProgressSet(items, pos, arrays, d0, m);
  }

  /** The keys of the destinations are kept: the worklist stays in order. */
  lemma HandlesKeep(items: seq<Pending>, arrays: map<Id, map<DValue, DValue>>, arrays': map<Id, map<DValue, DValue>>,
                    next: Id, d: Id, lo: Id)
    requires Handles(items, arrays, next, d, lo) && arrays'.Keys == arrays.Keys
    ensures Handles(items, arrays', next, d, lo)
  {
  }

  /** Writing into `d` or into an array created by the copy keeps the other arrays. */
  lemma FrameSet(a0: map<Id, map<DValue, DValue>>, arrays: map<Id, map<DValue, DValue>>, d: Id, lo: Id, k: Id,
                 m: map<DValue, DValue>)
    requires Frame(a0, arrays, d, lo) && (k == d || lo <= k)
    ensures Frame(a0, arrays[k := m], d, lo)
  {
  }

  /** Writing into the current item's destination keeps the other items' accounts. */
  lemma ProgressSet(items: seq<Pending>, pos: nat, arrays: map<Id, map<DValue, DValue>>, d0: map<DValue, DValue>,
                    m: map<DValue, DValue>)
    requires pos < |items| && Progress(items, pos, pos + 1, arrays, d0)
    requires forall j | 0 <= j < |items| && j != pos :: items[j].dest != items[pos].dest
    ensures Progress(items, pos, pos + 1, arrays[items[pos].dest := m], d0)
  {
    var arrays' := arrays[items[pos].dest := m];
    forall j | 0 <= j < pos
      ensures ItemDone(items, j, arrays', d0)
    {
      assert ItemDone(items, j, arrays, d0);
    }
    forall j | pos + 1 <= j < |items|
      ensures items[j].dest in arrays' && arrays'[items[j].dest] == Base(j, d0)
    {
    }
  }

  /**
    Creating the destination of subarray element `i` of the current item at
    `next + 1` and queuing it keeps every account.
  */
  lemma AddChild(items: seq<Pending>, pos: nat, i: nat, arrays: map<Id, map<DValue, DValue>>, next: Id, d: Id, lo: Id,
                 d0: map<DValue, DValue>, a0: map<Id, map<DValue, DValue>>)
    requires Midway(items, pos, i, arrays, next, d, lo, d0, a0)
    requires i < |items[pos].source.elements| && items[pos].source.elements[i].value.Arr?
    ensures
      var child := Pending(items[pos].source.elements[i].value.cookie, next + 1);
      Midway(items + [child], pos, i, arrays[next + 1 := map[]], next + 2, d, lo, d0, a0)
  {
    var cur := items[pos];
    var child := Pending(cur.source.elements[i].value.cookie, next + 1);
    assert UniqueKeys(cur.source);
    HandlesAdd(items, arrays, next, d, lo, child);
    FrameAdd(a0, arrays, d, lo, next + 1);
    ProgressAdd(items, pos, arrays, next, d0, child);
    assert (items + [child])[pos] == cur;
    PartlyGrow(cur.source, arrays[cur.dest], Base(pos, d0), items, [child], i);
  }

  /** Queuing a new destination at `next + 1` keeps the worklist in order. */
  lemma HandlesAdd(items: seq<Pending>, arrays: map<Id, map<DValue, DValue>>, next: Id, d: Id, lo: Id, child: Pending)
    requires Handles(items, arrays, next, d, lo) && child.dest == next + 1 && UniqueKeys(child.source)
    ensures Handles(items + [child], arrays[next + 1 := map[]], next + 2, d, lo)
  {
    var items' := items + [child];
    assert forall j | 0 <= j < |items| :: items'[j] == items[j];
    assert items'[|items|] == child;
  }

  /** A new array lies above every array that existed before the copy. */
  lemma FrameAdd(a0: map<Id, map<DValue, DValue>>, arrays: map<Id, map<DValue, DValue>>, d: Id, lo: Id, n: Id)
    requires Frame(a0, arrays, d, lo) && lo <= n
    ensures Frame(a0, arrays[n := map[]], d, lo)
  {
  }

  /** Queuing a new, empty destination keeps every account; the new item is untouched. */
  lemma ProgressAdd(items: seq<Pending>, pos: nat, arrays: map<Id, map<DValue, DValue>>, next: Id, d0: map<DValue, DValue>,
                    child: Pending)
    requires pos < |items| && Progress(items, pos, pos + 1, arrays, d0)
    requires (forall h | h in arrays :: h < next) && child.dest == next + 1
    ensures Progress(items + [child], pos, pos + 1, arrays[next + 1 := map[]], d0)
  {
    var items' := items + [child];
    var arrays' := arrays[next + 1 := map[]];
    assert forall j | 0 <= j < |items| :: items'[j] == items[j];
    forall j | 0 <= j < pos
      ensures ItemDone(items', j, arrays', d0)
    {
      assert ItemDone(items, j, arrays, d0);
      PartlyGrow(items[j].source, arrays[items[j].dest], Base(j, d0), items, [child], |items[j].source.elements|);
    }
    assert items'[|items|] == child;
  }

  /** Storing element `i`'s copy under its key extends the copied prefix by one. */
  lemma PartlyStep(a: SrcArray, m: map<DValue, DValue>, base: map<DValue, DValue>, items: seq<Pending>, i: nat, v: DValue)
    requires i < |a.elements| && Partly(a, m, base, items, i) && DistinctIndices(a)
    requires ElemOk(ByKey, a.elements[i])
    requires IsScalar(a.elements[i].value) ==> v == ValueOf(a.elements[i])
    requires a.elements[i].value.Arr? ==> v.Arr? && exists j :: 1 <= j < |items| && items[j] == Pending(a.elements[i].value.cookie, v.cookie)
    ensures Partly(a, m[KeyOf(a.elements[i]) := v], base, items, i + 1)
  {
    var k := KeyOf(a.elements[i]);
    var m' := m[k := v];
    forall i' | 0 <= i' < i
      ensures ElemCopied(a, i', m', items)
    {
      assert ElemCopied(a, i', m, items);
      assert a.elements[i'].index != a.elements[i].index;
      if KeyOf(a.elements[i']) == k {
        CopyInjective<SrcArray, Id>(a.elements[i'].index, a.elements[i].index);
      }
    }
  }

  /** Queuing more items keeps every account: the witnesses stay where they were. */
  lemma PartlyGrow(a: SrcArray, m: map<DValue, DValue>, base: map<DValue, DValue>, items: seq<Pending>, more: seq<Pending>, n: nat)
    requires Partly(a, m, base, items, n)
    ensures Partly(a, m, base, items + more, n)
  {
    forall i | 0 <= i < n
      ensures ElemCopied(a, i, m, items + more)
    {
      assert ElemCopied(a, i, m, items);
      var e := a.elements[i];
      if e.value.Arr? {
        var j :| 1 <= j < |items| && items[j] == Pending(e.value.cookie, m[KeyOf(e)].cookie);
        assert (items + more)[j] == items[j];
      }
    }
  }

  // ----- closing the accounts -----

  /** A queued copy of `a` into `h`, once every item is walked, holds exactly a copy of `a`. */
  lemma {:induction false} ClosedAt(items: seq<Pending>, arrays: map<Id, map<DValue, DValue>>, d0: map<DValue, DValue>,
                                    lo: Id, a: SrcArray, h: Id)
    requires Progress(items, |items|, |items|, arrays, d0)
    requires forall j | 1 <= j < |items| :: lo <= items[j].dest
    requires exists j :: 1 <= j < |items| && items[j] == Pending(a, h)
    ensures lo <= h && MirrorsExact(a, h, arrays, lo)
    decreases a, 2
  {
    var j :| 1 <= j < |items| && items[j] == Pending(a, h);
    assert ItemDone(items, j, arrays, d0);
    ElemsClosed(items, arrays, d0, lo, a, arrays[h], map[]);
  }

  lemma {:induction false} ElemsClosed(items: seq<Pending>, arrays: map<Id, map<DValue, DValue>>, d0: map<DValue, DValue>,
                                       lo: Id, a: SrcArray, m: map<DValue, DValue>, base: map<DValue, DValue>)
    requires Progress(items, |items|, |items|, arrays, d0)
    requires forall j | 1 <= j < |items| :: lo <= items[j].dest
    requires Partly(a, m, base, items, |a.elements|)
    ensures MirrorsElems(a, m, arrays, lo)
    decreases a, 1
  {
    forall i | 0 <= i < |a.elements|
      ensures ElemMirrored(a, i, m, arrays, lo)
    {
      assert ElemCopied(a, i, m, items);
      var e := a.elements[i];
      if e.value.Arr? {
        ClosedAt(items, arrays, d0, lo, e.value.cookie, m[KeyOf(e)].cookie);
      }
    }
  }

  /** Once every item is walked, the first destination holds the copy of the root on top of what it held. */
  lemma RootCopied(items: seq<Pending>, arrays: map<Id, map<DValue, DValue>>, d0: map<DValue, DValue>, lo: Id,
                   root: SrcArray, d: Id)
    requires Progress(items, |items|, |items|, arrays, d0)
    requires forall j | 1 <= j < |items| :: lo <= items[j].dest
    requires |items| >= 1 && items[0] == Pending(root, d)
    ensures CopiedInto(root, d, d0, arrays, lo)
  {
    assert ItemDone(items, 0, arrays, d0);
    ElemsClosed(items, arrays, d0, lo, root, arrays[d], d0);
  }

  // ----- the arrays the copy creates form a tree -----

  /** Stored handles are below `next`, and the arrays created at or above `lo` are attached once each. */
  ghost predicate Linked(arrays: map<Id, map<DValue, DValue>>, next: Id, lo: Id) {
    RefsBelow(arrays, next) && AttachedOnce(arrays, lo)
  }

  /** A new, empty array at `n` attaches nothing. */
  lemma LinkedAdd(arrays: map<Id, map<DValue, DValue>>, next: Id, lo: Id, n: Id, next': Id)
    requires Linked(arrays, next, lo) && next <= next'
    ensures Linked(arrays[n := map[]], next', lo)
  {
  }

  /**
    Storing `v` under `k` in the live array `h` keeps the created arrays a
    tree, when `v` is a scalar or an array no array refers to yet, with a
    handle above `h`.
  */
  lemma LinkedStore(arrays: map<Id, map<DValue, DValue>>, next: Id, lo: Id, h: Id, k: DValue, v: DValue, next': Id)
    requires Linked(arrays, next, lo) && h in arrays && next <= next'
    requires v.Arr? ==> h < v.cookie && next <= v.cookie < next'
    ensures Linked(arrays[h := arrays[h][k := v]], next', lo)
  {
    var a' := arrays[h := arrays[h][k := v]];
    forall x, y | x in a' && y in a'[x] && !(x == h && y == k)
      ensures x in arrays && y in arrays[x] && a'[x][y] == arrays[x][y]
    {
    }
    StoredOnce(arrays, next, lo, h, k, v);
  }

  /** The tree half of `LinkedStore`: a value no array refers to yet ends up stored in one place. */
  lemma StoredOnce(arrays: map<Id, map<DValue, DValue>>, next: Id, lo: Id, h: Id, k: DValue, v: DValue)
    requires Linked(arrays, next, lo) && h in arrays
    requires v.Arr? ==> h < v.cookie && next <= v.cookie
    ensures AttachedOnce(arrays[h := arrays[h][k := v]], lo)
  {
    var a': map<Id, map<DValue, DValue>> := arrays[h := arrays[h][k := v]];
    forall x: Id, y: DValue, x': Id, y': DValue | x in a' && y in a'[x] && x' in a' && y' in a'[x'] &&
        a'[x][y].Arr? && lo <= a'[x][y].cookie && a'[x][y] == a'[x'][y']
      ensures x == x' && y == y'
    {
      if x == h && y == k {
        if !(x' == h && y' == k) {
          assert a'[x'][y'] == arrays[x'][y'];
        }
      } else if x' == h && y' == k {
        assert a'[x][y] == arrays[x][y];
      } else {
        assert a'[x][y] == arrays[x][y] && a'[x'][y'] == arrays[x'][y'];
      }
    }
  }

  /**
    Every step of the copy keeps the arrays it created a tree: a subarray's
    new array is fresh when it is attached, under the current destination,
    which has a smaller handle.
  */
  lemma LinkedStep(st: Store, cur: Pending, e: Element, lo: Id)
    requires Linked(st.arrays, st.next, lo)
    requires forall h | h in st.arrays :: h < st.next
    ensures Linked(ElementStep(st, cur, e).store.arrays, ElementStep(st, cur, e).store.next, lo)
  {
    var r := ElementStep(st, cur, e);
    if IsScalar(e.index) && cur.dest in st.arrays {
      if IsScalar(e.value) {
        LinkedStore(st.arrays, st.next, lo, cur.dest, KeyOf(e), ValueOf(e), st.next);
      } else if e.value.Arr? {
        var a1 := st.arrays[st.next + 1 := map[]];
        LinkedAdd(st.arrays, st.next, lo, st.next + 1, st.next);
        assert a1[cur.dest] == st.arrays[cur.dest];
        LinkedStore(a1, st.next, lo, cur.dest, KeyOf(e), Arr(st.next + 1), st.next + 2);
      }
    } else if IsScalar(e.index) && e.value.Arr? {
      LinkedAdd(st.arrays, st.next, lo, st.next, st.next + 1);
    }
  }


  // ----- the whole run -----

  /** The bookkeeping at the end of a run that started from `items`. */
  ghost predicate Finished(r: Outcome, items: seq<Pending>, d: Id, lo: Id, d0: map<DValue, DValue>,
                           a0: map<Id, map<DValue, DValue>>) {
    && items <= r.items
    && Handles(r.items, r.store.arrays, r.store.next, d, lo) && Frame(a0, r.store.arrays, d, lo)
    && Linked(r.store.arrays, r.store.next, lo)
    && (r.ok ==> Progress(r.items, |r.items|, |r.items|, r.store.arrays, d0))
  }

  lemma SourcesTail(items: seq<Pending>, idx: nat)
    requires idx < |items|
    ensures Sources(items[idx..]) == [items[idx].source] + Sources(items[idx + 1..])
  {
    assert items[idx..] == [items[idx]] + items[idx + 1..];
    SourcesAppend([items[idx]], items[idx + 1..]);
  }

  /**
    From item `idx` on, the bookkeeping holds to the end of the run, and the
    run succeeds exactly when the by-key flatten run over the same source
    arrays does.
  */
  lemma {:induction false} DrainKeeps(items: seq<Pending>, idx: nat, st: Store, d: Id, lo: Id, d0: map<DValue, DValue>,
                                      a0: map<Id, map<DValue, DValue>>, out: seq<DValue>)
    requires idx <= |items| && Handles(items, st.arrays, st.next, d, lo) && Frame(a0, st.arrays, d, lo)
    requires Progress(items, idx, idx, st.arrays, d0) && Linked(st.arrays, st.next, lo)
    ensures Finished(CopyDrain(items, idx, st), items, d, lo, d0, a0)
    ensures CopyDrain(items, idx, st).ok == Drain(ByKey, Sources(items[idx..]), out).ok
    decreases SumSize(Sources(items[idx..])), 0
  {
    if idx == |items| {
      assert items[idx..] == [];
    } else {
      SourcesTail(items, idx);
      if items[idx].source.elements != [] {
        SumSizeSplit(items, idx);
        MidwayOpen(items, idx, st.arrays, st.next, d, lo, d0, a0);
        ScanKeeps(items, idx, 0, st, d, lo, d0, a0, out);
      }
    }
  }

  /** The same from element `i` of item `idx` on. */
  lemma {:induction false} ScanKeeps(items: seq<Pending>, idx: nat, i: nat, st: Store, d: Id, lo: Id,
                                     d0: map<DValue, DValue>, a0: map<Id, map<DValue, DValue>>, out: seq<DValue>)
    requires idx < |items| && i <= |items[idx].source.elements|
    requires Midway(items, idx, i, st.arrays, st.next, d, lo, d0, a0) && Linked(st.arrays, st.next, lo)
    ensures Finished(CopyScan(items, idx, i, st), items, d, lo, d0, a0)
    ensures CopyScan(items, idx, i, st).ok == Scan(ByKey, items[idx].source, i, Sources(items[idx + 1..]), out).ok
    decreases SumSize(Sources(items[idx + 1..])) + SizeFrom(items[idx].source, i), 2
  {
    var cur := items[idx];
    if i == |cur.source.elements| {
      MidwayClose(items, idx, st.arrays, st.next, d, lo, d0, a0);
      DrainKeeps(items, idx + 1, st, d, lo, d0, a0, out);
    } else if ElemOk(ByKey, cur.source.elements[i]) {
      ElemKeeps(items, idx, i, st, d, lo, d0, a0, out);
    } else {
      ScanStep(ByKey, cur.source, i, Sources(items[idx + 1..]), out);
      LinkedStep(st, cur, cur.source.elements[i], lo);
    }
  }

  /** The same for a well-formed element `i`: one step, then the rest of the scan. */
  lemma {:induction false} ElemKeeps(items: seq<Pending>, idx: nat, i: nat, st: Store, d: Id, lo: Id,
                                     d0: map<DValue, DValue>, a0: map<Id, map<DValue, DValue>>, out: seq<DValue>)
    requires idx < |items| && i < |items[idx].source.elements|
    requires Midway(items, idx, i, st.arrays, st.next, d, lo, d0, a0)
    requires ElemOk(ByKey, items[idx].source.elements[i]) && Linked(st.arrays, st.next, lo)
    ensures Finished(CopyScan(items, idx, i, st), items, d, lo, d0, a0)
    ensures CopyScan(items, idx, i, st).ok == Scan(ByKey, items[idx].source, i, Sources(items[idx + 1..]), out).ok
    decreases SumSize(Sources(items[idx + 1..])) + SizeFrom(items[idx].source, i), 1
  {
    var e := items[idx].source.elements[i];
    var r := ElementStep(st, items[idx], e);
    Advance(items, idx, i, st, d, lo, d0, a0);
    LinkedStep(st, items[idx], e, lo);
    ScanAdvance(items, idx, i, r.queued, out);
    ScanKeeps(items + r.queued, idx, i + 1, r.store, d, lo, d0, a0, out + Emit(ByKey, e));
    FinishedFrom(CopyScan(items, idx, i, st), items, items + r.queued, d, lo, d0, a0);
  }

  /** The by-key flatten run's side of one well-formed element. */
  lemma ScanAdvance(items: seq<Pending>, idx: nat, i: nat, q: seq<Pending>, out: seq<DValue>)
    requires idx < |items| && i < |items[idx].source.elements|
    requires ElemOk(ByKey, items[idx].source.elements[i])
    requires (items + q)[idx] == items[idx]
    requires
      var e := items[idx].source.elements[i];
      Sources((items + q)[idx + 1..]) == Sources(items[idx + 1..]) + (if e.value.Arr? then [e.value.cookie] else [])
    ensures
      Scan(ByKey, items[idx].source, i, Sources(items[idx + 1..]), out) ==
      Scan(ByKey, (items + q)[idx].source, i + 1, Sources((items + q)[idx + 1..]), out + Emit(ByKey, items[idx].source.elements[i]))
  {
    var e := items[idx].source.elements[i];
    ScanStep(ByKey, items[idx].source, i, Sources(items[idx + 1..]), out);
    if !e.value.Arr? {
      assert Sources(items[idx + 1..]) + [] == Sources(items[idx + 1..]);
    }
  }

  /** A run that keeps the bookkeeping from a longer worklist keeps it from a prefix of it. */
  lemma FinishedFrom(r: Outcome, items: seq<Pending>, items': seq<Pending>, d: Id, lo: Id, d0: map<DValue, DValue>,
                     a0: map<Id, map<DValue, DValue>>)
    requires items <= items' && Finished(r, items', d, lo, d0, a0)
    ensures Finished(r, items, d, lo, d0, a0)
  {
  }

  /**
    One well-formed element: the step succeeds, the bookkeeping moves on to
    the next element, and the queued sources grow as the by-key flatten
    run's do.
  */
  lemma Advance(items: seq<Pending>, idx: nat, i: nat, st: Store, d: Id, lo: Id,
                d0: map<DValue, DValue>, a0: map<Id, map<DValue, DValue>>)
    requires idx < |items| && i < |items[idx].source.elements|
    requires Midway(items, idx, i, st.arrays, st.next, d, lo, d0, a0)
    requires ElemOk(ByKey, items[idx].source.elements[i])
    ensures
      var e := items[idx].source.elements[i];
      var r := ElementStep(st, items[idx], e);
      && r.ok && items <= items + r.queued && (items + r.queued)[idx] == items[idx]
      && Midway(items + r.queued, idx, i + 1, r.store.arrays, r.store.next, d, lo, d0, a0)
      && CopyScan(items, idx, i, st) == CopyScan(items + r.queued, idx, i + 1, r.store)
      && Sources((items + r.queued)[idx + 1..]) == Sources(items[idx + 1..]) + (if e.value.Arr? then [e.value.cookie] else [])
      && SumSize(Sources((items + r.queued)[idx + 1..])) + SizeFrom(items[idx].source, i + 1)
         < SumSize(Sources(items[idx + 1..])) + SizeFrom(items[idx].source, i)
  {
    var e := items[idx].source.elements[i];
    var r := ElementStep(st, items[idx], e);
    ScanMeasure(items, idx, i, r.queued);
    SourcesAfter(items, idx, r.queued);
    if e.value.Arr? {
      StepChild(items, idx, i, st.arrays, st.next, d, lo, d0, a0, items + r.queued, r.store.arrays);
      assert Sources(r.queued) == [e.value.cookie];
    } else {
      assert items + r.queued == items;
      StepScalar(items, idx, i, st.arrays, st.next, d, lo, d0, a0, r.store.arrays);
    }
  }

  /**
    What do_copy_array achieves. From a live destination `d`, the run
    succeeds exactly when the source tree is well formed for a by-key
    traversal; then `d` holds a copy of the tree on top of what it held,
    whose subarrays are all arrays the run created. Either way `d` stays
    live, every other array that existed is unchanged, every array the run
    created has a handle at or above the first free one, and the created
    arrays form a tree: each is attached in exactly one place, under an
    array with a smaller handle.
  */
  lemma CopyRunCorrect(root: SrcArray, d: Id, st: Store)
    requires d in st.arrays && (forall h | h in st.arrays :: h < st.next) && UniqueKeys(root)
    requires RefsBelow(st.arrays, st.next)
    ensures CopyRun(root, d, st).ok == WellFormed(ByKey, root)
    ensures CopyRun(root, d, st).ok ==> CopiedInto(root, d, st.arrays[d], CopyRun(root, d, st).store.arrays, st.next)
    ensures d in CopyRun(root, d, st).store.arrays
    ensures forall h | h in st.arrays && h != d ::
      h in CopyRun(root, d, st).store.arrays && CopyRun(root, d, st).store.arrays[h] == st.arrays[h]
    ensures forall h | h in CopyRun(root, d, st).store.arrays && h !in st.arrays :: st.next <= h
    ensures AttachedOnce(CopyRun(root, d, st).store.arrays, st.next)
    ensures RefsBelow(CopyRun(root, d, st).store.arrays, CopyRun(root, d, st).store.next)
  {
    var items := [Pending(root, d)];
    var r := CopyRun(root, d, st);
    assert Handles(items, st.arrays, st.next, d, st.next);
    assert Progress(items, 0, 0, st.arrays, st.arrays[d]);
    assert Linked(st.arrays, st.next, st.next);
    DrainKeeps(items, 0, st, d, st.next, st.arrays[d], st.arrays, []);
    assert Sources(items[0..]) == [root];
    FlattenSpec(ByKey, root);
    assert r.items[0] == Pending(root, d);
    if r.ok {
      RootCopied(r.items, r.store.arrays, st.arrays[d], st.next, root, d);
    }
  }
}
