# gopq: an indexed binary-heap priority queue, in Dafny

This project models the priority queue of the Go package `queue`
(alexanderbez/gopq). The queue keeps its elements in a slice, `items`,
ordered as a binary max-heap. Every element records the slot it occupies
(`Index`/`SetIndex`). A caller can therefore change an element's priority in
place and ask the queue to `Update` it, or remove it, without a search. The
sift logic comes from Go's `container/heap` (`up`, `down`, `Push`, `Pop`,
`Fix`, `Remove`). It is written out here from its standard definitions, and
it drives the queue's own `Less`, `Swap`, `Push` and `Pop` on `items`.

Elements are modelled on `testHeapable`, the element of the repository's
tests: `Item(priority, index, value)`, with an integer priority compared by
strict `>`. `Entry(priority, value)` is an element without its bookkeeping
slot. Contents of queues are multisets of entries.

The files:

- `items.dfy` (module `Items`): the element and the `items` methods `Less`,
  `Swap`, `Push` and `Pop`. `Coherent` is the index-coherence invariant: every
  element records its own slot.
- `heap.dfy` (module `Heap`): heap order, `up` and `down` (as `Up` and
  `Down`), `FixAt`, and `container/heap`'s `Push`, `Pop`, `Fix` and `Remove`.
  It also holds the proofs that each of them restores heap order.
- `queue.dfy` (module `Queue`): `PriorityQueue` with `New`, `Push`, `Pop`,
  `Size` and `Update`, plus `Remove`. It adds the checked operations the
  tests call (`TryPop`, `TryUpdate`, `TryRemove`), which report `EmptyQueue`
  or `InvalidIndex`. `Drain` pops a queue until it is empty; its lemmas say
  what order the pops come in. `Step` and `Run` replay any sequence of client
  calls.
- `scenarios.dfy` (module `Scenarios`): the test tables of
  `priority_queue_test.go`, proved as statements about the model. The
  four-element scenarios are derived from the general theorems (validity,
  contents, and the characterisation of `Drain`), not by evaluating the pops.

`Valid` (heap order plus index coherence) is the representation invariant.
Every operation keeps it, and `Run` keeps it across any sequence of calls.

`priority_queue.go` and its tests disagree. The tests call a `Pop` and an
`Update` that return errors, and a `Remove`; the published code has no
`Remove`, panics on `Pop` of an empty queue, and panics on `Update` for most
recorded slots out of range. Two out-of-range slots do not panic: for slot -1,
and for slot 0 of an empty queue, `heap.Fix` does nothing, because `down`
stops at once and `up` finds the slot to be its own parent. The model follows
the code for the plain operations: they carry preconditions where Go would
panic or the slot is out of range. The error-returning behaviour the tests
expect is a separate, checked layer on top. `Remove` is
`container/heap.Remove` at the element's recorded slot.

## Model

| member | source | states |
|---|---|---|
| Items.Less | priority_queue.go:66-68 | Slot i is preferred over slot j when `Higher`, the test element's `Priority` (priority_queue_test.go:12-18, strict `>` on priorities), holds between their elements; the preference is strict: a slot is never preferred over itself, nor over a slot holding an equal entry |
| Items.Swap | priority_queue.go:71-75 | The two slots exchange their elements, each moved element is stamped with its new slot, and every other slot is unchanged; the contents and index coherence are kept |
| Items.Push | priority_queue.go:78-83 | The element is appended at slot n and stamped n, the old slots are unchanged, and the contents grow by exactly that element |
| Items.Pop | priority_queue.go:86-95 | The last element is cut off and returned with its recorded slot untouched; in a coherent slice that slot is the new length, and the contents shrink by exactly that element |
| Heap.Up | priority_queue.go:66-75 | Sifting up through `Less` and `Swap` keeps the length, the slots after j, the contents and index coherence |
| Heap.Down | priority_queue.go:66-75 | Sifting down within the first n slots keeps the length, the slots from n on, the contents and index coherence; when the element does not move, the slice is unchanged |
| Heap.UpRestoresHeap | priority_queue.go:38-40 | When heap order fails only between slot j and its ancestors, `up` from j restores heap order on the first n slots |
| Heap.DownRestoresHeap | priority_queue.go:44-46 | When heap order fails only at the edges of slot i, `down` from i either moves the element and restores heap order, or leaves it and then slot i is no worse than its children |
| Heap.FixAt | priority_queue.go:56-58 | Down-else-up at slot i, the step `heap.Fix` and `heap.Remove` share, keeps the length, the slots from n on, the contents and index coherence |
| Heap.FixRestoresHeap | priority_queue.go:56-58 | Down-else-up at slot i restores heap order whenever it failed only at the edges of slot i |
| Heap.HeapIsAlmostHeap | priority_queue.go:56-58 | A heap is unbroken at every slot, so `Fix` on an unchanged element keeps heap order |
| Heap.ReprioritizedIsAlmostHeap | priority_queue_test.go:138-140 | Changing one element's priority in place breaks heap order at most at the edges of its slot |
| Heap.RootIsMax | priority_queue.go:42-46 | In a heap, no slot has a higher priority than the root |
| Heap.RootIsMaxOfContents | priority_queue.go:42-46 | The root of a heap has a priority at least that of every element in it |
| Heap.Push | priority_queue.go:38-40 | `heap.Push` adds exactly the element and keeps heap order and index coherence |
| Heap.Pop | priority_queue.go:44-46 | `heap.Pop` returns the root's entry, of highest priority, stamped with the last slot; it removes exactly that entry and keeps heap order and index coherence |
| Heap.Fix | priority_queue.go:56-58 | `heap.Fix` keeps the contents and index coherence, and restores heap order when only slot i was out of place |
| Heap.SwapWithLastIsAlmostHeap | priority_queue_test.go:204 | Moving the last element of a heap into slot i breaks heap order of the shortened slice at most at the edges of slot i |
| Heap.Remove | priority_queue_test.go:204 | Removal at slot i returns that slot's entry, stamped with the new length, removes exactly that entry, and keeps heap order and index coherence |
| Queue.Size | priority_queue.go:49-51 | The size is the number of elements held, counting repeated entries |
| Queue.New | priority_queue.go:30-35 | A new queue is empty and valid |
| Queue.Push | priority_queue.go:37-40 | Push grows the size by one, adds exactly the element, and keeps the queue valid |
| Queue.Pop | priority_queue.go:42-46 | Pop shrinks the size by one and removes exactly the returned element; in a valid queue that element has the highest priority of all and records the new size, and the queue stays valid |
| Queue.Reprioritize | priority_queue_test.go:138 | The caller's write changes the priority of one slot and nothing else |
| Queue.Update | priority_queue.go:53-58 | Update keeps the size, the contents and index coherence, and restores heap order after a change confined to the element's slot |
| Queue.UpdateAfterReprioritize | priority_queue_test.go:138-140 | Changing an element's priority and then calling Update on it gives a valid queue whose contents are the old ones with that one entry re-prioritised |
| Queue.UpdateKeepsValid | priority_queue.go:56-58 | Update on an unchanged element of a valid queue keeps it valid |
| Queue.Remove | priority_queue_test.go:204-210 | Remove shrinks the size by one and removes exactly the entry in the element's slot; a valid queue stays valid and the element records the new size |
| Queue.TryPop | priority_queue_test.go:229-241 | The checked Pop fails with `EmptyQueue` exactly when the queue is empty, and otherwise is Pop |
| Queue.TryUpdate | priority_queue_test.go:244-259 | The checked Update fails with `InvalidIndex` exactly when the recorded slot is not below the size (or is negative), and otherwise is Update |
| Queue.TryRemove | priority_queue_test.go:261-276 | The checked Remove fails with `InvalidIndex` exactly when the recorded slot is not below the size (or is negative), and otherwise is Remove |
| Queue.Drain | priority_queue_test.go:76-89 | Popping until the queue is empty pops once per element held, and the k-th popped element records the size left after its pop, Size - 1 - k |
| Queue.DrainContents | priority_queue_test.go:76-89 | Popping a queue until it is empty yields each of its elements exactly once |
| Queue.DrainIsSorted | priority_queue.go:42-46 | The entries popped from a valid queue are in descending order of priority |
| Queue.SortedEntriesUnique | priority_queue.go:42-46 | When no two entries share a priority, there is one descending order of a multiset of entries |
| Queue.DrainDeterminedByContents | priority_queue.go:42-46 | When priorities identify elements, two valid queues with the same contents pop the same sequence |
| Queue.DrainCharacterized | priority_queue_test.go:76-89 | When priorities identify elements, a valid queue pops exactly the sequence that holds its elements, descends by priority and stamps each element with the number popped after it |
| Queue.PushThenRemove | priority_queue.go:37-40 | Pushing an element and removing it again leaves a valid queue with the same size and contents, which pops in the same order when priorities identify elements |
| Queue.Step | priority_queue.go:37-58 | Every client call keeps a valid queue valid; Push adds one element, a Pop or Remove that succeeds takes one away, and Update keeps the size |
| Queue.Run | priority_queue.go:37-58 | Any sequence of client calls keeps a valid queue valid |
| Queue.RunSize | priority_queue.go:48-51 | After any sequence of calls, the size is the initial size plus the pushes minus the pops and removes that succeeded |
| Scenarios.PushAll | priority_queue_test.go:68-70 | Pushing a list of elements in turn adds each of them and keeps the queue valid |
| Scenarios.StrictlyDescendingOrder | priority_queue_test.go:56-61 | Entries whose priorities strictly decrease are in descending order, and their priorities tell them apart |
| Scenarios.PopsInOrder | priority_queue_test.go:76-89 | A valid queue holding entries with distinct priorities pops them by descending priority, each stamped with the number popped after it |
| Scenarios.UpdateContents | priority_queue_test.go:138-140 | Re-prioritising one element of a valid queue and calling Update on it replaces exactly that entry |
| Scenarios.RemoveContents | priority_queue_test.go:204 | Removing the element of one slot of a valid queue leaves a valid queue without exactly that entry |
| Scenarios.FourPushesLayout | priority_queue_test.go:49-54 | Pushing 10, 8, 12 and 9 lays the heap out as 12, 9, 10, 8 |
| Scenarios.EmptyScenario | priority_queue_test.go:34-38 | An empty queue has size 0 and pops nothing |
| Scenarios.SingleElementScenario | priority_queue_test.go:39-47 | One pushed element gives size 1 and pops with its priority and slot 0 |
| Scenarios.FourElementScenario | priority_queue_test.go:48-62 | Pushing 10, 8, 12, 9 gives size 4, and the pops yield 12, 10, 9, 8 with slots 3, 2, 1, 0 |
| Scenarios.SingleUpdateScenario | priority_queue_test.go:101-111 | A single element raised from 1 to 10 and updated pops with priority 10 and slot 0 |
| Scenarios.UpdateScenario | priority_queue_test.go:112-128 | Raising the element of priority 8 to 20 and updating it keeps size 4, and the pops yield 20, 12, 10, 9 with slots 3, 2, 1, 0 |
| Scenarios.RemoveOnlyScenario | priority_queue_test.go:172-179 | Removing the only element leaves size 0 |
| Scenarios.RemoveScenario | priority_queue_test.go:180-194 | Removing the element of priority 12 leaves size 3, and the pops yield 10, 9, 8 with slots 2, 1, 0 |
| Scenarios.PopErrorScenario | priority_queue_test.go:229-242 | Pop on a fresh queue, and on a queue emptied by Pop, fails with `EmptyQueue` |
| Scenarios.IndexErrorScenario | priority_queue_test.go:244-276 | Update and Remove fail with `InvalidIndex` on an empty queue, and for an element recording slot 1 in a queue of size 1 |

## Left out

- Go's dynamic typing is left out. `Priority` takes an `interface{}`, and for an element of another type the test element answers `false` (priority_queue_test.go:12-18). The model has one element type, and the comparator is fixed to `testHeapable`'s strict `>` on an integer priority.
- `heap.Init` is not modelled on a non-empty slice. `NewPriorityQueue` only runs it on an empty slice, where it does nothing.
- The panics of `priority_queue.go` are preconditions: Pop needs a non-empty queue, and Update and Remove need the recorded slot to be in range. The checked layer turns these cases into `EmptyQueue` and `InvalidIndex`, as the tests expect.
- Queue.Update: `requires InRange` also excludes the two out-of-range slots on which Go's `Update` silently does nothing, slot -1 and slot 0 of an empty queue. `TryUpdate` reports both as `InvalidIndex`, as the tests expect of slot 0 on a fresh queue (priority_queue_test.go:250).
- Queue.TryUpdate: negative recorded slots are also reported as `InvalidIndex`. The tests only show slots at or above the size. The published code panics on slots at or above the size other than slot 0 of an empty queue, and on slots below -1; it does nothing on slot -1 and on slot 0 of an empty queue.
- The index guard is only the comparison `0 <= index < size`. Membership is not checked: an element from another queue whose recorded slot is in range passes the guard, and the model does not strengthen this.
- The caller's in-place change of an element's priority is modelled as `Reprioritize` on the slot the element records. This is exact for members of a valid queue, because of index coherence. Aliasing is not modelled: the same element pushed twice, or shared between queues.
- The guard `j1 < 0` in Go's `down` is not modelled. It catches `int` overflow of `2*i + 1`, which no slice is long enough to reach with unbounded integers, and it also stops `down` at once for a negative starting slot, which the model's preconditions exclude (see Queue.Update above).
- `reflect.DeepEqual` and the `testing` package are not modelled. The scenarios state the values the tests compare against.
- Concurrency is out of scope: the queue is not synchronised.
- Queue.PushThenRemove: the pop order is only claimed equal when no two elements share a priority. With equal priorities, the heap may break ties differently after the round trip.
- Queue.DrainDeterminedByContents: stated only when priorities identify elements, for the same reason.
