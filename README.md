# arrayfuncs: deep flatten and deep copy of gawk arrays, in Dafny

This project models the core of `arrayfuncs.c`, a gawk extension with three
array routines and the code they share:

- `copy_element` rebuilds one scalar value (string, regex, strnum, number,
  bool, undefined) for the destination side. It refuses arrays, scalar
  cookies, value cookies and unknown tags.
- The worklist buffer `struct subarrays *list` (`alloc_subarray_list` and the
  growth check at the top of every iteration) starts with room for 10 items
  and grows tenfold when `size >= maxsize - 1`. A cursor `idx` chases `size`,
  so the buffer is a FIFO queue and the walk is breadth first.
- `do_deep_flat_array` writes every scalar value of the source tree into the
  destination array under the keys 0, 1, 2, ...
- `do_deep_flat_array_idx` writes the index of every element instead,
  subarray elements included.
- `do_copy_array` copies the source tree into the destination array. It
  creates one new destination array per subarray, attaches it under the
  copied key, re-reads its handle and queues it with the source subarray.

The host (gawk) is a class `Host`. Destination arrays are a map from handles
to contents, plus the next free handle and the multiset of open snapshots. Its
API calls (`flatten_array_typed`, `release_flattened_array`, `create_array`,
`set_array_element`) are methods with contracts. A source array is modelled as
its snapshot, an inductive `SrcArray` value, so source trees are finite and
acyclic and never alias the destination.

Each routine is an imperative method over the worklist class. Each method is
proved to follow a pure run function step by step:

- `Drain`/`Scan` for the flattens (module `Traversal`);
- `CopyDrain`/`CopyScan`/`ElementStep` for the copy (module `CopySpec`).

Lemmas then say what those runs compute without mentioning the queue:

- when they succeed (`WellFormed`);
- how many values they write (`Count`);
- in what order (`Bfs`, `ConcatOut`);
- what a finished copy is (`CopiedInto`, `MirrorsExact`, `AttachedOnce`).

The bookkeeping for the copy proof is in module `CopyProof`.

Two behaviours of the code a reader may not expect:

- A refused snapshot (an empty array) ends the whole call with result 0.
  The code jumps to `out` (arrayfuncs.c:198-202, 292-296, 385-389); it does
  not skip the array.
- The by-key flatten writes the index of a subarray element too
  (arrayfuncs.c:299-321), so a tree `{x, y: {a, b}}` gives `x, y, a, b`.

## Model

| member | source | states |
|---|---|---|
| Values.CopyElement | arrayfuncs.c:88-126 | Succeeds exactly for string, regex, strnum, number, bool and undefined, and fails for array, scalar cookie, value cookie and unknown tags. Texts, numbers and truth values are kept; undefined gives the host's null value. |
| Values.CopyInjective | arrayfuncs.c:88-126 | Two scalars with the same copy are equal, so distinct source indices give distinct destination keys. |
| HostApi.Host.FlattenArrayTyped | arrayfuncs.c:198-202 | The snapshot is refused for an empty array; otherwise it lists the elements in order and is counted as open. |
| HostApi.Host.ReleaseFlattenedArray | arrayfuncs.c:232-237 | Releasing removes one open snapshot of that array. |
| HostApi.Host.CreateArray | arrayfuncs.c:401-403 | A new empty array at the next free handle; nothing else changes. |
| HostApi.Host.SetArrayElement | arrayfuncs.c:405-411 | It fails on a dead handle. A scalar is stored under the key. An array is re-homed under a new handle, which is returned, and stored under the key. |
| Worklists.Worklist.Alloc | arrayfuncs.c:128-134 | A fresh buffer with room for 10 and no items. |
| Worklists.Worklist.Grow | arrayfuncs.c:135-141 | A fresh buffer ten times larger, holding the same items. |
| Worklists.Worklist.GrowIfNearlyFull | arrayfuncs.c:190-196 | The capacity grows tenfold exactly when `size >= maxsize - 1`; the items are unchanged. |
| Worklists.Worklist.Push | arrayfuncs.c:210-211 | Appends one item at the end, after the same nearly-full check, so the write is inside the buffer. |
| Worklists.Worklist.At | arrayfuncs.c:198 | Reading slot `i < size` gives the `i`-th item appended. |
| Worklists.CapacityAtTop | arrayfuncs.c:190-191 | The capacity after the check at the top of an iteration never shrinks and is ten times larger when the buffer was nearly full. |
| Worklists.AsWrittenOverflow | arrayfuncs.c:190-211 | As written, the check at the top of an iteration does not cover all of that iteration's appends. In the first iteration, nine subarrays fit and the tenth is written to slot 10 of 10. |
| Flattening.FirstIterationOverflow | arrayfuncs.c:190-211 | As written, the first iteration's appends stay inside the buffer exactly when the root has at most nine direct subarrays. A root whose ten elements are all subarrays writes slot 10 of 10. |
| Traversal.EmitSpec | arrayfuncs.c:206-222 | By value, an element writes one value exactly when its value is a scalar, and that value is its copy. By key, it writes the copy of its index. |
| Traversal.DrainOk | arrayfuncs.c:188-226 | The worklist loop succeeds exactly when every queued tree is well formed. |
| Traversal.ScanOk | arrayfuncs.c:205-224 | The element loop from element `i` succeeds exactly when the remaining elements and the queued trees are well formed. |
| Traversal.DrainCount | arrayfuncs.c:217-222 | A successful run writes exactly `SumCount` values for the queued trees. |
| Traversal.ScanCount | arrayfuncs.c:205-224 | The same count from element `i` of the current array. |
| Traversal.DrainOrder | arrayfuncs.c:188-226 | A successful run writes the arrays' outputs in breadth-first order, each array's in snapshot order. |
| Traversal.ScanOrder | arrayfuncs.c:205-224 | The same order from element `i` of the current array. |
| Traversal.BfsAppend | arrayfuncs.c:210-211 | Breadth-first order of a queue is the queue, then the breadth-first order of the rest plus its children. |
| Traversal.BfsLayers | arrayfuncs.c:188-226 | The breadth-first order is the queue followed by the breadth-first order of its children. |
| Traversal.FlattenSpec | arrayfuncs.c:188-226 | From one root, the run succeeds exactly on a well-formed tree. It then writes `Count` values, namely the arrays' outputs in breadth-first order. |
| Traversal.KeyCountExceedsValueCount | arrayfuncs.c:299-321 | On a well-formed tree, the by-key flatten writes as many keys as the by-value flatten writes values, plus one for every array below the root. |
| Traversal.KeyCountFrom | arrayfuncs.c:299-321 | The same count from element `i` on: by-key writes equal by-value writes plus the subarray elements. |
| Traversal.DenseSpec | arrayfuncs.c:217-222 | The `i`-th value written is stored under key `i`, and no other keys are written. |
| Flattening.DeepFlatArray | arrayfuncs.c:148-240 | Result 1 exactly when there are two arguments, both arrays, and the source tree is well formed. The destination gets the run's values under 0..N-1 on top of what it held (after a failure, the part written before it). No other array changes. Every snapshot but possibly one is released. |
| Flattening.DeepFlatArrayIdx | arrayfuncs.c:242-337 | The same for the by-key run: every element's index, subarray elements included. |
| Flattening.DeepFlatten | arrayfuncs.c:154-186 | The shared body of both flatten routines, with the contract above for a given mode. |
| Flattening.FlattenInto | arrayfuncs.c:184-238 | Queues the root, runs the loop and releases the snapshots. The destination ends as the run `Flatten` says. |
| Flattening.Walk | arrayfuncs.c:188-226 | The worklist loop ends as `Drain` of the initial worklist says. `idx` counts the arrays walked, and at most one snapshot stays open after a failure. |
| Flattening.VisitArray | arrayfuncs.c:189-225 | One iteration: grow if nearly full, take the snapshot (a refusal ends the run) and walk the elements. The run moves one array further, or stops as `Drain` says. |
| Flattening.FlattenElements | arrayfuncs.c:205-224 | The element loop ends as `Scan` over that array says, with each value written under the next dense key. |
| Flattening.FlattenElement | arrayfuncs.c:206-222 | One element: a subarray is queued; the value (by value) or the index (by key) is written under the next key; any other element fails. |
| Flattening.ReleaseSnapshots | arrayfuncs.c:232-237 | Releases the snapshots of items `0..idx-1`, once each. |
| Flattening.LeakBound | arrayfuncs.c:228-237 | Snapshots taken for completed arrays, then released, leave at most the one for the failed array open, and none after success. |
| CopySpec.ElementStep | arrayfuncs.c:392-423 | One element of the copy fails exactly when its index or value cannot be copied, or the destination is not live. It queues the pair (source subarray, new destination) exactly for a subarray. After a failure, no array is lost. |
| CopySpec.CopiedKeysCount | arrayfuncs.c:392-423 | With distinct indices, a complete copy writes one key per element. |
| CopySpec.KeyNotEarlier | arrayfuncs.c:392-423 | An element's key is not among the keys of the elements before it, when indices are distinct. |
| CopySpec.SubarraysDistinct | arrayfuncs.c:401-412 | In a copy whose created arrays form a tree, two different subarray elements of one array hold two different arrays. Both were created by the copy and have handles above the array holding them. |
| CopySpec.ScanMeasure | arrayfuncs.c:392-423 | Each copied element strictly decreases the size of the work left, so the copy loop ends. |
| CopyProof.StepScalar | arrayfuncs.c:418-421 | Storing a scalar element's copy under its key keeps the copy's bookkeeping and extends the copied prefix by one. |
| CopyProof.StepChild | arrayfuncs.c:401-412 | Creating, attaching and queuing a new destination for a subarray element keeps the bookkeeping. The new array is live, distinct from the others and empty. |
| CopyProof.AddChild | arrayfuncs.c:401-412 | Queuing a new empty destination keeps every other item's account. |
| CopyProof.LinkedStep | arrayfuncs.c:401-412 | Every element step keeps the arrays created by the copy a tree. A subarray's new array is referred to by nothing when it is attached, and its parent has a smaller handle. |
| CopyProof.ElemsClosed | arrayfuncs.c:339-438 | Once every item is walked, each element of an item is mirrored, recursively, through the queued destinations, which are arrays created by the copy. |
| CopyProof.RootCopied | arrayfuncs.c:339-438 | At the end of a successful run, the destination argument holds a copy of the source tree on top of its old contents. |
| CopyProof.DrainKeeps | arrayfuncs.c:375-425 | From item `idx` on, the copy loop keeps its bookkeeping to the end. It succeeds exactly when the by-key flatten loop over the same sources does. |
| CopyProof.ScanKeeps | arrayfuncs.c:391-424 | The same from element `i` of the current item on. |
| CopyProof.CopyRunCorrect | arrayfuncs.c:339-438 | The copy run succeeds exactly when the source tree is well formed for a by-key traversal. On success the destination holds a copy of the tree on top of what it held, and every subarray of the copy is an array the run created. Either way, the destination stays live and every other array that existed is unchanged. New arrays have handles at or above the first free one. They form a tree: each is attached in exactly one place, under an array with a smaller handle. |
| Copying.CopyArray | arrayfuncs.c:339-438 | Result 1 exactly when there are two arguments, both arrays, and the source tree is well formed. The destination then holds a copy of the source tree, whose subarrays are all arrays created by the call. No other existing array changes. The created arrays are each attached in exactly one place. Every snapshot but possibly one is released. |
| Copying.CopyInto | arrayfuncs.c:371-438 | Ends in exactly the state of the run `CopyRun`, and hence has what `CopyRunCorrect` proves of it. |
| Copying.CopyWalk | arrayfuncs.c:375-426 | The worklist loop ends as `CopyDrain` from the first item says: the same verdict, worklist, count of items walked and arrays. |
| Copying.VisitPending | arrayfuncs.c:376-425 | One iteration moves `CopyDrain` one item further or to where it stops. The work left strictly decreases. A snapshot is taken exactly for a non-empty array. |
| Copying.CopyElements | arrayfuncs.c:391-424 | The element loop ends as `CopyScan` over that item says. |
| Copying.CopyOne | arrayfuncs.c:392-423 | One element has exactly the effect of `ElementStep`, failures included. |
| Copying.ReleasePending | arrayfuncs.c:430-435 | Releases the snapshots of items `0..idx-1`, once each. |

## Left out

- Memory allocation: `malloc`/`realloc` failure in `alloc_subarray_list`
  (arrayfuncs.c:131-141), and the `list = NULL` overwrite it would cause
  before cleanup. Dafny allocation cannot fail.
- Argument fetching is reduced to its outcome. `get_argument` succeeds
  exactly when the value is an array, and the destination must be a live
  array. The host's conversion of keys between strings and numbers is not
  modelled: a key is the copied index value itself.
- Numbers are `real` values. The dense keys 0..N-1 that the flattens write
  with `make_number(dest_idx, ...)` are `Number(i)` values. Double rounding
  is not modelled.
- `eprint`/`dprint` logging, extension registration (`dl_load`, the function
  table, the API version check) and the commented-out text after line 440.
- Cycles and aliasing between source arrays, and between source and
  destination, cannot be expressed, since source trees are inductive values.
- Copying.CopyArray, CopyProof.CopyRunCorrect: require that every array value
  stored in a destination array refers to a handle the host has handed out
  (`RefsBelow`). The host keeps this invariant, and its calls here preserve
  it, but it is not part of `Host.Valid`.
- Flattening.DeepFlatArray, Flattening.DeepFlatArrayIdx, Copying.CopyArray:
  the modelled host refuses a store only into an array that is not live, or
  an attach of an array that is not live or is the target itself. gawk can
  refuse other stores, and the model does not capture them. So the exits on
  a failed store (arrayfuncs.c:218-221, 316-319, 405-409, 418-421) are never
  taken here, and "result 1 exactly on a well-formed tree" holds for this
  host only. A host that could refuse would leave only "result 1 implies a
  well-formed tree".
- Copying.CopyArray, CopyProof.CopyRunCorrect: require that no array of the
  source tree repeats an index (`UniqueKeys`). The host guarantees this for
  its snapshots; the code relies on it without checking.
- A failure inside an element loop leaves that array's snapshot open. The
  cleanup loop stops at `i < idx`. This is modelled as written:
  `SnapshotsReleased` allows at most one open snapshot after a failure.
- In `do_copy_array`, `size -= 1` on a failed attach (arrayfuncs.c:407) has
  no effect: the routine jumps to cleanup, which uses only `idx`. The array
  created just before stays allocated and unattached, and the model keeps it
  in the host state.
- The worklist writes use `Worklist.Push`, which checks capacity before
  every append (see Findings). The model therefore has no out-of-bounds
  write to follow.

## Findings

| source | as written | input that shows it | evidently intended | confidence | as-written member | corrected member |
|---|---|---|---|---|---|---|
| arrayfuncs.c:190-211 (also 284-290 with 304-305, 377-383 with 410-412) | Capacity is checked once at the top of each iteration, but one iteration appends one item per subarray it meets | a source array whose first level holds 10 subarrays: the first iteration starts with size 1 and room for 10, and the tenth append writes slot 10 | check the capacity before every append | high (not executed) | Flattening.FirstIterationOverflow | Worklists.Worklist.Push |
