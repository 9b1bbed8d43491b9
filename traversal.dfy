/**
  What the flatten traversals compute, as functions on source trees.

  `Drain` and `Scan` follow the worklist loop step by step: `Drain` takes
  the next pending array (the host refuses a snapshot of an empty one, and
  the run stops), `Scan` walks its elements in snapshot order, appending
  subarrays to the pending queue and emitting one output value per scalar
  (by value) or per element (by key). The lemmas connect this run to
  definitions that do not mention the queue: a recursive well-formedness
  predicate, recursive counts, and breadth-first order `Bfs`.
*/
module Traversal {
  import opened Values
  import opened HostApi

  /** do_deep_flat_array writes values, do_deep_flat_array_idx writes indices. */
  datatype Mode = ByValue | ByKey

  /** Outcome of a run: whether it got to the end, and what it wrote, in order. */
  datatype Run = Run(ok: bool, out: seq<DValue>)

  // ----- a size measure for termination -----

  function Size(a: SrcArray): nat
    decreases a, 1
  {
    1 + SizeFrom(a, 0)
  }

  function SizeFrom(a: SrcArray, i: nat): nat
    decreases a, 0, |a.elements| - i
  {
    if i >= |a.elements| then 0
    else 1 + (if a.elements[i].value.Arr? then Size(a.elements[i].value.cookie) else 0) + SizeFrom(a, i + 1)
  }

  function SumSize(q: seq<SrcArray>): nat {
    if q == [] then 0 else Size(q[0]) + SumSize(q[1..])
  }

  lemma {:induction false} SumSizeAppend(p: seq<SrcArray>, q: seq<SrcArray>)
    ensures SumSize(p + q) == SumSize(p) + SumSize(q)
  {
    if p == [] {
      assert p + q == q;
    } else {
      assert (p + q)[1..] == p[1..] + q;
      SumSizeAppend(p[1..], q);
    }
  }

  // ----- one element -----

  /** Elements the traversal can handle: the value is a scalar or an array, and (by key) the index is a scalar. */
  predicate ElemOk(mode: Mode, e: Element) {
    && (IsScalar(e.value) || e.value.Arr?)
    && (mode == ByKey ==> IsScalar(e.index))
  }

  /** What one element contributes to the output. */
  function Emit(mode: Mode, e: Element): seq<DValue> {
    match mode
    case ByValue =>
      var v := CopyElement<SrcArray, Id>(e.value);
      if v.Some? then [v.value] else []
    case ByKey =>
      var k := CopyElement<SrcArray, Id>(e.index);
      if k.Some? then [k.value] else []
  }

  /**
    An element contributes at most one value: by value, the copy of a scalar
    value and nothing for a subarray; by key, the copy of the index.
  */
  lemma EmitSpec(mode: Mode, e: Element)
    ensures |Emit(mode, e)| <= 1
    ensures mode == ByKey && IsScalar(e.index) ==> Emit(mode, e) == [CopyElement<SrcArray, Id>(e.index).value]
    ensures mode == ByValue ==> (|Emit(mode, e)| == 1 <==> IsScalar(e.value))
    ensures mode == ByValue && IsScalar(e.value) ==> Emit(mode, e) == [CopyElement<SrcArray, Id>(e.value).value]
  {
  }

  // ----- the run, step by step -----

  /** Process the pending queue `q`, having already written `out`. */
  function Drain(mode: Mode, q: seq<SrcArray>, out: seq<DValue>): Run
    decreases SumSize(q), 0
  {
    if q == [] then Run(true, out)
    else if q[0].elements == [] then Run(false, out)
    else Scan(mode, q[0], 0, q[1..], out)
  }

  /** Process elements `i..` of the current array `a`, then the pending queue `p`. */
  function Scan(mode: Mode, a: SrcArray, i: nat, p: seq<SrcArray>, out: seq<DValue>): Run
    requires i <= |a.elements|
    decreases SumSize(p) + SizeFrom(a, i), 1
  {
    if i == |a.elements| then Drain(mode, p, out)
    else
      var e := a.elements[i];
      if !ElemOk(mode, e) then Run(false, out)
      else if e.value.Arr? then
        SumSizeAppend(p, [e.value.cookie]);
        Scan(mode, a, i + 1, p + [e.value.cookie], out + Emit(mode, e))
      else
        Scan(mode, a, i + 1, p, out + Emit(mode, e))
  }

  /** One step of `Scan`: the element at `i` either stops the run or is emitted, its subarray queued. */
  lemma ScanStep(mode: Mode, a: SrcArray, i: nat, p: seq<SrcArray>, out: seq<DValue>)
    requires i < |a.elements|
    ensures !ElemOk(mode, a.elements[i]) ==> Scan(mode, a, i, p, out) == Run(false, out)
    ensures ElemOk(mode, a.elements[i]) && a.elements[i].value.Arr? ==>
      Scan(mode, a, i, p, out) == Scan(mode, a, i + 1, p + [a.elements[i].value.cookie], out + Emit(mode, a.elements[i]))
    ensures ElemOk(mode, a.elements[i]) && !a.elements[i].value.Arr? ==>
      Scan(mode, a, i, p, out) == Scan(mode, a, i + 1, p, out + Emit(mode, a.elements[i]))
  {
  }

  /** The whole traversal from one root array. */
  function Flatten(mode: Mode, root: SrcArray): Run {
    Drain(mode, [root], [])
  }

  // ----- reference definitions -----

  /** Every array reachable from `a` is non-empty and holds only elements the traversal can handle. */
  predicate WellFormed(mode: Mode, a: SrcArray)
    decreases a, 1
  {
    a.elements != [] && ElemsWellFormed(mode, a, 0)
  }

  predicate ElemsWellFormed(mode: Mode, a: SrcArray, i: nat)
    decreases a, 0
  {
    forall j | i <= j < |a.elements| ::
      ElemOk(mode, a.elements[j]) && (a.elements[j].value.Arr? ==> WellFormed(mode, a.elements[j].value.cookie))
  }

  predicate AllWellFormed(mode: Mode, q: seq<SrcArray>) {
    forall j | 0 <= j < |q| :: WellFormed(mode, q[j])
  }

  /** How many values the traversal writes for the tree rooted at `a`. */
  function Count(mode: Mode, a: SrcArray): nat
    decreases a, 1
  {
    CountFrom(mode, a, 0)
  }

  function CountFrom(mode: Mode, a: SrcArray, i: nat): nat
    decreases a, 0, |a.elements| - i
  {
    if i >= |a.elements| then 0
    else
      |Emit(mode, a.elements[i])|
      + (if a.elements[i].value.Arr? then Count(mode, a.elements[i].value.cookie) else 0)
      + CountFrom(mode, a, i + 1)
  }

  function SumCount(mode: Mode, q: seq<SrcArray>): nat {
    if q == [] then 0 else Count(mode, q[0]) + SumCount(mode, q[1..])
  }

  /** The number of arrays in the tree rooted at `a`, `a` included. */
  function Arrays(a: SrcArray): nat
    decreases a, 1
  {
    1 + ArraysFrom(a, 0)
  }

  function ArraysFrom(a: SrcArray, i: nat): nat
    decreases a, 0, |a.elements| - i
  {
    if i >= |a.elements| then 0
    else (if a.elements[i].value.Arr? then Arrays(a.elements[i].value.cookie) else 0) + ArraysFrom(a, i + 1)
  }

  /** The direct subarrays of `a` from element `i` on, in snapshot order. */
  function SubsFrom(a: SrcArray, i: nat): seq<SrcArray>
    decreases |a.elements| - i
  {
    if i >= |a.elements| then []
    else (if a.elements[i].value.Arr? then [a.elements[i].value.cookie] else []) + SubsFrom(a, i + 1)
  }

  /** The values array `a` itself contributes, from element `i` on, in snapshot order. */
  function OutFrom(mode: Mode, a: SrcArray, i: nat): seq<DValue>
    decreases |a.elements| - i
  {
    if i >= |a.elements| then [] else Emit(mode, a.elements[i]) + OutFrom(mode, a, i + 1)
  }

  /** The direct subarrays of every array of `q`, in order. */
  function Children(q: seq<SrcArray>): seq<SrcArray> {
    if q == [] then [] else SubsFrom(q[0], 0) + Children(q[1..])
  }

  lemma {:induction false} SubsSize(a: SrcArray, i: nat)
    ensures SumSize(SubsFrom(a, i)) <= SizeFrom(a, i)
    decreases |a.elements| - i
  {
    if i < |a.elements| {
      var here := if a.elements[i].value.Arr? then [a.elements[i].value.cookie] else [];
      SubsSize(a, i + 1);
      SumSizeAppend(here, SubsFrom(a, i + 1));
      if here != [] {
        assert here[1..] == [];
      }
    }
  }

  /** Breadth-first order: each array of the queue, then the subarrays it discovers, queued behind the rest. */
  function Bfs(q: seq<SrcArray>): seq<SrcArray>
    decreases SumSize(q)
  {
    if q == [] then []
    else
      SubsSize(q[0], 0);
      SumSizeAppend(q[1..], SubsFrom(q[0], 0));
      [q[0]] + Bfs(q[1..] + SubsFrom(q[0], 0))
  }

  /** Concatenated output of a sequence of arrays, each in snapshot order. */
  function ConcatOut(mode: Mode, s: seq<SrcArray>): seq<DValue> {
    if s == [] then [] else OutFrom(mode, s[0], 0) + ConcatOut(mode, s[1..])
  }

  // ----- the run succeeds exactly on well-formed trees -----

  lemma {:induction false} DrainOk(mode: Mode, q: seq<SrcArray>, out: seq<DValue>)
    ensures Drain(mode, q, out).ok <==> AllWellFormed(mode, q)
    decreases SumSize(q), 0
  {
    if q != [] && q[0].elements != [] {
      ScanOk(mode, q[0], 0, q[1..], out);
      assert AllWellFormed(mode, q) <==> WellFormed(mode, q[0]) && AllWellFormed(mode, q[1..]) by {
        forall j | 1 <= j < |q| ensures q[j] == q[1..][j - 1] { }
      }
    }
  }

  lemma {:induction false} ScanOk(mode: Mode, a: SrcArray, i: nat, p: seq<SrcArray>, out: seq<DValue>)
    requires i <= |a.elements|
    ensures Scan(mode, a, i, p, out).ok <==> ElemsWellFormed(mode, a, i) && AllWellFormed(mode, p)
    decreases SumSize(p) + SizeFrom(a, i), 1
  {
    if i == |a.elements| {
      DrainOk(mode, p, out);
    } else {
      var e := a.elements[i];
      if ElemOk(mode, e) {
        var p' := if e.value.Arr? then p + [e.value.cookie] else p;
        if e.value.Arr? {
          SumSizeAppend(p, [e.value.cookie]);
        }
        ScanOk(mode, a, i + 1, p', out + Emit(mode, e));
        assert AllWellFormed(mode, p') <==>
               AllWellFormed(mode, p) && (e.value.Arr? ==> WellFormed(mode, e.value.cookie)) by {
          if e.value.Arr? {
            assert p'[|p|] == e.value.cookie;
            forall j | 0 <= j < |p| ensures p'[j] == p[j] { }
          }
        }
      }
    }
  }

  // ----- how much the run writes -----

  lemma {:induction false} SumCountAppend(mode: Mode, p: seq<SrcArray>, q: seq<SrcArray>)
    ensures SumCount(mode, p + q) == SumCount(mode, p) + SumCount(mode, q)
  {
    if p == [] {
      assert p + q == q;
    } else {
      assert (p + q)[1..] == p[1..] + q;
      SumCountAppend(mode, p[1..], q);
    }
  }

  lemma {:induction false} DrainCount(mode: Mode, q: seq<SrcArray>, out: seq<DValue>)
    ensures Drain(mode, q, out).ok ==> |Drain(mode, q, out).out| == |out| + SumCount(mode, q)
    decreases SumSize(q), 0
  {
    if q != [] && q[0].elements != [] {
      ScanCount(mode, q[0], 0, q[1..], out);
    }
  }

  lemma {:induction false} ScanCount(mode: Mode, a: SrcArray, i: nat, p: seq<SrcArray>, out: seq<DValue>)
    requires i <= |a.elements|
    ensures Scan(mode, a, i, p, out).ok ==>
      |Scan(mode, a, i, p, out).out| == |out| + CountFrom(mode, a, i) + SumCount(mode, p)
    decreases SumSize(p) + SizeFrom(a, i), 1
  {
    if i == |a.elements| {
      DrainCount(mode, p, out);
    } else {
      var e := a.elements[i];
      if ElemOk(mode, e) {
        if e.value.Arr? {
          SumSizeAppend(p, [e.value.cookie]);
          ScanCount(mode, a, i + 1, p + [e.value.cookie], out + Emit(mode, e));
          SumCountAppend(mode, p, [e.value.cookie]);
          assert SumCount(mode, [e.value.cookie]) == Count(mode, e.value.cookie);
        } else {
          ScanCount(mode, a, i + 1, p, out + Emit(mode, e));
        }
      }
    }
  }

  // ----- in what order the run writes -----

  lemma {:induction false} ScanOrder(mode: Mode, a: SrcArray, i: nat, p: seq<SrcArray>, out: seq<DValue>)
    requires i <= |a.elements|
    ensures Scan(mode, a, i, p, out).ok ==>
      Scan(mode, a, i, p, out) == Drain(mode, p + SubsFrom(a, i), out + OutFrom(mode, a, i))
    decreases |a.elements| - i
  {
    if i == |a.elements| {
      assert p + [] == p && out + [] == out;
    } else {
      var e := a.elements[i];
      if ElemOk(mode, e) {
        if e.value.Arr? {
          ScanOrder(mode, a, i + 1, p + [e.value.cookie], out + Emit(mode, e));
          assert p + [e.value.cookie] + SubsFrom(a, i + 1) == p + SubsFrom(a, i);
        } else {
          ScanOrder(mode, a, i + 1, p, out + Emit(mode, e));
          assert SubsFrom(a, i) == SubsFrom(a, i + 1);
        }
        assert out + Emit(mode, e) + OutFrom(mode, a, i + 1) == out + OutFrom(mode, a, i);
      }
    }
  }

  lemma {:induction false} DrainOrder(mode: Mode, q: seq<SrcArray>, out: seq<DValue>)
    ensures Drain(mode, q, out).ok ==> Drain(mode, q, out).out == out + ConcatOut(mode, Bfs(q))
    decreases SumSize(q)
  {
    if q == [] {
      assert out + [] == out;
    } else if q[0].elements != [] {
      var rest := q[1..] + SubsFrom(q[0], 0);
      ScanOrder(mode, q[0], 0, q[1..], out);
      SubsSize(q[0], 0);
      SumSizeAppend(q[1..], SubsFrom(q[0], 0));
      DrainOrder(mode, rest, out + OutFrom(mode, q[0], 0));
      assert Bfs(q) == [q[0]] + Bfs(rest);
      assert ConcatOut(mode, Bfs(q)) == OutFrom(mode, q[0], 0) + ConcatOut(mode, Bfs(rest)) by {
        assert ([q[0]] + Bfs(rest))[1..] == Bfs(rest);
      }
    }
  }

  // ----- breadth-first order, independently of the run -----

  lemma {:induction false} ChildrenAppend(p: seq<SrcArray>, q: seq<SrcArray>)
    ensures Children(p + q) == Children(p) + Children(q)
  {
    if p == [] {
      assert p + q == q;
    } else {
      assert (p + q)[1..] == p[1..] + q;
      ChildrenAppend(p[1..], q);
    }
  }

  /** Processing the queue `q` ahead of `r` visits `q` first and queues its children behind `r`. */
  lemma {:induction false} BfsAppend(q: seq<SrcArray>, r: seq<SrcArray>)
    ensures Bfs(q + r) == q + Bfs(r + Children(q))
    decreases |q|
  {
    if q == [] {
      assert q + r == r && r + [] == r;
    } else {
      var x := q[0];
      assert (q + r)[0] == x && (q + r)[1..] == q[1..] + r;
      assert Bfs(q + r) == [x] + Bfs(q[1..] + r + SubsFrom(x, 0));
      assert q[1..] + r + SubsFrom(x, 0) == q[1..] + (r + SubsFrom(x, 0));
      BfsAppend(q[1..], r + SubsFrom(x, 0));
      assert Children(q) == SubsFrom(x, 0) + Children(q[1..]);
      assert r + SubsFrom(x, 0) + Children(q[1..]) == r + Children(q);
      assert [x] + q[1..] == q;
    }
  }

  /** Breadth-first: every array of one generation comes before every array of the next. */
  lemma BfsLayers(q: seq<SrcArray>)
    ensures Bfs(q) == q + Bfs(Children(q))
  {
    BfsAppend(q, []);
    assert q + [] == q && [] + Children(q) == Children(q);
  }

  // ----- summary for one root -----

  /**
    A flatten succeeds exactly when the tree is well formed; then it writes
    `Count` values, the outputs of the arrays in breadth-first order, each
    array's in snapshot order. Whether it succeeds or not, what it wrote is
    a prefix of nothing but those outputs.
  */
  lemma FlattenSpec(mode: Mode, root: SrcArray)
    ensures Flatten(mode, root).ok <==> WellFormed(mode, root)
    ensures Flatten(mode, root).ok ==>
      && Flatten(mode, root).out == ConcatOut(mode, Bfs([root]))
      && |Flatten(mode, root).out| == Count(mode, root)
  {
    DrainOk(mode, [root], []);
    DrainCount(mode, [root], []);
    DrainOrder(mode, [root], []);
    assert [root][1..] == [];
    assert AllWellFormed(mode, [root]) <==> WellFormed(mode, root) by {
      assert [root][0] == root;
    }
  }

  // ----- flatten by key writes one value per element -----

  /**
    On a tree the key traversal accepts, it writes one index per element,
    subarray elements included: as many as the value traversal writes plus
    one for every array below the root.
  */
  lemma {:induction false} KeyCountExceedsValueCount(a: SrcArray)
    requires WellFormed(ByKey, a)
    ensures Count(ByKey, a) == Count(ByValue, a) + Arrays(a) - 1
    decreases a, 1
  {
    KeyCountFrom(a, 0);
  }

  lemma {:induction false} KeyCountFrom(a: SrcArray, i: nat)
    requires ElemsWellFormed(ByKey, a, i)
    ensures CountFrom(ByKey, a, i) == CountFrom(ByValue, a, i) + ArraysFrom(a, i)
    decreases a, 0, |a.elements| - i
  {
    if i < |a.elements| {
      var e := a.elements[i];
      assert ElemOk(ByKey, e);
      assert ElemsWellFormed(ByKey, a, i + 1);
      KeyCountFrom(a, i + 1);
      if e.value.Arr? {
        KeyCountExceedsValueCount(e.value.cookie);
      }
    }
  }

  // ----- the destination keys -----

  /** The destination index `make_number(dest_idx)` builds. */
  function IndexKey(i: nat): DValue {
    Number(i as real)
  }

  /** The dense destination keys: key `i` maps to `vs[i]`, for `i` in `0..|vs|-1`. */
  function Dense(vs: seq<DValue>): map<DValue, DValue> {
    if vs == [] then map[]
    else Dense(vs[..|vs| - 1])[IndexKey(|vs| - 1) := vs[|vs| - 1]]
  }

  /** Appending one value stores it under the next dense key. */
  lemma DenseSnoc(vs: seq<DValue>, v: DValue)
    ensures Dense(vs + [v]) == Dense(vs)[IndexKey(|vs|) := v]
  {
    assert (vs + [v])[..|vs|] == vs;
  }

  /** `Dense(vs)` holds `vs[i]` under key `i` for every position, and no other key. */
  lemma {:induction false} DenseSpec(vs: seq<DValue>)
    ensures forall i: nat | i < |vs| :: IndexKey(i) in Dense(vs) && Dense(vs)[IndexKey(i)] == vs[i]
    ensures forall k | k in Dense(vs) :: exists i: nat | i < |vs| :: k == IndexKey(i)
  {
    if vs != [] {
      var init := vs[..|vs| - 1];
      DenseSpec(init);
      assert forall i: nat | i < |init| :: IndexKey(i) != IndexKey(|vs| - 1) && init[i] == vs[i];
    }
  }
}
