/** `PriorityQueue`: the public wrapper around the heap-ordered `items` slice,
    with the operations of priority_queue.go (`NewPriorityQueue`, `Push`, `Pop`,
    `Size`, `Update`), `Remove` as `container/heap` defines it, and the checked
    variants the repository's tests call, which report `EmptyQueue` and
    `InvalidIndex` instead of failing. */
module Queue {
  import opened Items
  import Heap

  datatype PriorityQueue = PriorityQueue(items: seq<Item>)

  /** The representation invariant: heap order and index coherence. */
  predicate Valid(q: PriorityQueue) {
    Heap.IsHeap(q.items) && Coherent(q.items)
  }

  /** `Size`: the number of elements held, counting repeated entries. */
  function Size(q: PriorityQueue): (n: nat)
    ensures n == |Contents(q.items)|
  {
    |q.items|
  }

  /** The handle names a current slot: the guard the checked operations apply
      before trusting an element's recorded index. */
  predicate InRange(q: PriorityQueue, h: Item) {
    0 <= h.index < Size(q)
  }

  /** `NewPriorityQueue`: an empty queue (`heap.Init` of an empty slice does nothing). */
  function New(): (q: PriorityQueue)
    ensures Size(q) == 0 && Contents(q.items) == multiset{}
    ensures Valid(q)
  {
    PriorityQueue([])
  }

  /** `Push`: add one element. */
  function Push(q: PriorityQueue, h: Item): (r: PriorityQueue)
    ensures Size(r) == Size(q) + 1
    ensures Contents(r.items) == Contents(q.items) + multiset{EntryOf(h)}
    ensures Valid(q) ==> Valid(r)
  {
    PriorityQueue(Heap.Push(q.items, h))
  }

  /** A queue after an element has left it, and that element. */
  datatype Taken = Taken(queue: PriorityQueue, item: Item)

  /** `Pop`: remove an element of highest priority. The element keeps the
      slot it was last stamped with, which is the new size. */
  function Pop(q: PriorityQueue): (r: Taken)
    requires Size(q) > 0
    ensures Size(r.queue) == Size(q) - 1
    ensures Contents(q.items) == Contents(r.queue.items) + multiset{EntryOf(r.item)}
    ensures r.item.index == Size(r.queue)
    ensures Valid(q) ==> Valid(r.queue)
    ensures Valid(q) ==> forall e :: e in Contents(q.items) ==> e.priority <= r.item.priority
  {
    var p := Heap.Pop(q.items);
    Taken(PriorityQueue(p.rest), p.item)
  }

  /** The caller's in-place write to the priority of the element it holds,
      which a valid queue keeps in the slot the element records. */
  function Reprioritize(q: PriorityQueue, slot: nat, p: int): (r: PriorityQueue)
    requires slot < Size(q)
    ensures Size(r) == Size(q)
    ensures r.items[slot].priority == p
    ensures r.items[slot].index == q.items[slot].index && r.items[slot].value == q.items[slot].value
    ensures forall k :: 0 <= k < Size(q) && k != slot ==> r.items[k] == q.items[k]
  {
    PriorityQueue(q.items[slot := q.items[slot].(priority := p)])
  }

  /** `Update`: re-establish heap order around the slot the element records,
      after the caller changed the element's priority. Only the recorded index
      of the handle is read. */
  function Update(q: PriorityQueue, h: Item): (r: PriorityQueue)
    requires InRange(q, h)
    ensures Size(r) == Size(q)
    ensures Contents(r.items) == Contents(q.items)
    ensures Coherent(q.items) ==> Coherent(r.items)
    ensures Heap.AlmostHeap(q.items, h.index, Size(q)) ==> Heap.IsHeap(r.items)
  {
    PriorityQueue(Heap.Fix(q.items, h.index))
  }

  /** A caller that changes one element's priority and then calls `Update`
      on it gets back a valid queue with the same elements, one of them
      re-prioritized. */
  lemma UpdateAfterReprioritize(q: PriorityQueue, slot: nat, p: int)
    requires Valid(q) && slot < Size(q)
    ensures var q1 := Reprioritize(q, slot, p);
            var r := Update(q1, q1.items[slot]);
            && Valid(r)
            && Contents(r.items) + multiset{EntryOf(q.items[slot])}
               == Contents(q.items) + multiset{Entry(p, q.items[slot].value)}
  {
    var q1 := Reprioritize(q, slot, p);
    Heap.ReprioritizedIsAlmostHeap(q.items, slot, p);
    assert q1.items == q.items[slot := q.items[slot].(priority := p)];
    assert Entries(q1.items) == Entries(q.items)[slot := Entry(p, q.items[slot].value)];
    assert Coherent(q1.items);
  }

  /** `Update` on an unchanged element of a valid queue, or on any handle that
      passes the index guard, leaves the queue valid. */
  lemma UpdateKeepsValid(q: PriorityQueue, h: Item)
    requires Valid(q) && InRange(q, h)
    ensures Valid(Update(q, h))
  {
    Heap.HeapIsAlmostHeap(q.items, h.index, Size(q));
  }

  /** `container/heap.Remove` at the slot the element records. */
  function Remove(q: PriorityQueue, h: Item): (r: Taken)
    requires InRange(q, h)
    ensures Size(r.queue) == Size(q) - 1
    ensures EntryOf(r.item) == EntryOf(q.items[h.index])
    ensures Contents(q.items) == Contents(r.queue.items) + multiset{EntryOf(r.item)}
    ensures Valid(q) ==> Valid(r.queue) && r.item.index == Size(r.queue)
  {
    var p := Heap.Remove(q.items, h.index);
    Taken(PriorityQueue(p.rest), p.item)
  }

  /** The two failures the checked operations report. */
  datatype Error = EmptyQueue | InvalidIndex

  datatype Result<T> = Ok(value: T) | Err(error: Error)

  /** `Pop` that reports `EmptyQueue` on an empty queue. */
  function TryPop(q: PriorityQueue): (r: Result<Taken>)
    ensures r == Err(EmptyQueue) <==> Size(q) == 0
    ensures r.Err? ==> r.error == EmptyQueue
    ensures r.Ok? ==> Size(q) > 0 && r.value == Pop(q)
  {
    if Size(q) == 0 then Err(EmptyQueue) else Ok(Pop(q))
  }

  /** `Update` that reports `InvalidIndex` when the handle's recorded slot is
      not a slot of the queue. */
  function TryUpdate(q: PriorityQueue, h: Item): (r: Result<PriorityQueue>)
    ensures r.Err? <==> !InRange(q, h)
    ensures r.Err? ==> r.error == InvalidIndex
    ensures r.Ok? ==> InRange(q, h) && r.value == Update(q, h)
  {
    if !InRange(q, h) then Err(InvalidIndex) else Ok(Update(q, h))
  }

  /** `Remove` that reports `InvalidIndex` when the handle's recorded slot is
      not a slot of the queue. */
  function TryRemove(q: PriorityQueue, h: Item): (r: Result<Taken>)
    ensures r.Err? <==> !InRange(q, h)
    ensures r.Err? ==> r.error == InvalidIndex
    ensures r.Ok? ==> InRange(q, h) && r.value == Remove(q, h)
  {
    if !InRange(q, h) then Err(InvalidIndex) else Ok(Remove(q, h))
  }

  /** The elements `Pop` yields, in order, until the queue is empty: one per
      element held, each stamped with the size the queue had after its pop. */
  function Drain(q: PriorityQueue): (d: seq<Item>)
    ensures |d| == Size(q)
    ensures forall k :: 0 <= k < |d| ==> d[k].index == Size(q) - 1 - k
    decreases Size(q)
  {
    if Size(q) == 0 then []
    else
      var t := Pop(q);
      var rest := Drain(t.queue);
      assert forall k :: 0 < k <= |rest| ==> ([t.item] + rest)[k] == rest[k - 1];
      [t.item] + rest
  }

  /** Popping a queue empty yields every element it holds, once. */
  lemma {:induction false} DrainContents(q: PriorityQueue)
    ensures multiset(Entries(Drain(q))) == Contents(q.items)
    decreases Size(q)
  {
    if Size(q) > 0 {
      var t := Pop(q);
      var d := Drain(t.queue);
      DrainContents(t.queue);
      assert Drain(q) == [t.item] + d;
      EntriesOfCons(t.item, d);
    }
  }

  lemma EntriesOfCons(x: Item, d: seq<Item>)
    ensures multiset(Entries([x] + d)) == multiset{EntryOf(x)} + Contents(d)
  {
    assert Entries([x] + d) == [EntryOf(x)] + Entries(d);
  }

  lemma EntryInContents(d: seq<Item>, k: nat)
    requires k < |d|
    ensures EntryOf(d[k]) in Contents(d)
  {
    assert Entries(d)[k] == EntryOf(d[k]);
  }

  /** A valid queue pops its elements by descending priority. */
  lemma {:induction false} DrainIsSorted(q: PriorityQueue)
    requires Valid(q)
    ensures Descending(Entries(Drain(q)))
    decreases Size(q)
  {
    if Size(q) > 0 {
      var t := Pop(q);
      var d := Drain(t.queue);
      DrainIsSorted(t.queue);
      DrainContents(t.queue);
      BelowBound(d, Contents(q.items), t.item.priority);
      DescendingCons(t.item, d);
      assert Drain(q) == [t.item] + d;
    }
  }

  /** Items whose entries all lie in a multiset bounded by `p` are bounded by `p`. */
  lemma BelowBound(d: seq<Item>, m: multiset<Entry>, p: int)
    requires multiset(Entries(d)) <= m
    requires forall e :: e in m ==> e.priority <= p
    ensures forall k :: 0 <= k < |d| ==> d[k].priority <= p
  {
    forall k | 0 <= k < |d|
      ensures d[k].priority <= p
    {
      EntryInContents(d, k);
    }
  }

  /** An item no lower than any of a descending sequence can head it. */
  lemma DescendingCons(x: Item, d: seq<Item>)
    requires Descending(Entries(d))
    requires forall k :: 0 <= k < |d| ==> d[k].priority <= x.priority
    ensures Descending(Entries([x] + d))
  {
    var ds := Entries(d);
    var s := Entries([x] + d);
    forall a, b | 0 <= a < b < |s|
      ensures s[a].priority >= s[b].priority
    {
      assert s[b] == EntryOf(d[b - 1]) == ds[b - 1];
      if a > 0 {
        assert s[a] == EntryOf(d[a - 1]) == ds[a - 1];
      }
    }
  }

  /** No two different entries of the multiset share a priority. */
  predicate PrioritiesIdentify(m: multiset<Entry>) {
    forall e1, e2 :: e1 in m && e2 in m && e1.priority == e2.priority ==> e1 == e2
  }

  /** Ordered by descending priority. */
  predicate Descending(s: seq<Entry>) {
    forall i, j :: 0 <= i < j < |s| ==> s[i].priority >= s[j].priority
  }

  lemma HeadIsMax(s: seq<Entry>, e: Entry)
    requires Descending(s) && e in multiset(s)
    ensures 0 < |s| && e.priority <= s[0].priority
  {
    var k :| 0 <= k < |s| && s[k] == e;
    if k > 0 {
      assert s[0].priority >= s[k].priority;
    }
  }

  lemma TailContents(s: seq<Entry>)
    requires 0 < |s|
    ensures multiset(s[1..]) == multiset(s) - multiset{s[0]}
    ensures multiset(s[1..]) <= multiset(s)
  {
    assert s == [s[0]] + s[1..];
  }

  lemma DescendingTail(s: seq<Entry>)
    requires 0 < |s| && Descending(s)
    ensures Descending(s[1..])
  {
    forall i, j | 0 <= i < j < |s| - 1
      ensures s[1..][i].priority >= s[1..][j].priority
    {
      assert s[1..][i] == s[i + 1] && s[1..][j] == s[j + 1];
    }
  }

  lemma IdentifySubset(m: multiset<Entry>, m': multiset<Entry>)
    requires m <= m' && PrioritiesIdentify(m')
    ensures PrioritiesIdentify(m)
  {
    forall e1, e2 | e1 in m && e2 in m && e1.priority == e2.priority
      ensures e1 == e2
    {
      assert e1 in m' && e2 in m';
    }
  }

  /** Sorted sequences with the same entries start with the same entry. */
  lemma HeadsAgree(a: seq<Entry>, b: seq<Entry>)
    requires 0 < |a| && Descending(a) && Descending(b)
    requires multiset(a) == multiset(b)
    requires PrioritiesIdentify(multiset(a))
    ensures 0 < |b| && a[0] == b[0]
  {
    assert a[0] in multiset(a);
    HeadIsMax(b, a[0]);
    assert b[0] in multiset(b);
    HeadIsMax(a, b[0]);
  }

  lemma SameHeadSameTail(a: seq<Entry>, b: seq<Entry>)
    requires 0 < |a| && 0 < |b| && a[0] == b[0] && a[1..] == b[1..]
    ensures a == b
  {
    assert a == [a[0]] + a[1..] && b == [b[0]] + b[1..];
  }

  /** Two sequences ordered by descending priority, with the same entries,
      none of whose priorities is shared by two different entries, are equal. */
  lemma {:induction false} SortedEntriesUnique(a: seq<Entry>, b: seq<Entry>)
    requires Descending(a) && Descending(b)
    requires multiset(a) == multiset(b)
    requires PrioritiesIdentify(multiset(a))
    ensures a == b
    decreases |a|
  {
    if |a| == 0 {
      assert |multiset(b)| == 0;
    } else {
      HeadsAgree(a, b);
      TailContents(a);
      TailContents(b);
      IdentifySubset(multiset(a[1..]), multiset(a));
      DescendingTail(a);
      DescendingTail(b);
      SortedEntriesUnique(a[1..], b[1..]);
      SameHeadSameTail(a, b);
    }
  }

  /** Items agreeing in entry and recorded slot are equal. */
  lemma SameEntriesSameIndices(d1: seq<Item>, d2: seq<Item>)
    requires Entries(d1) == Entries(d2)
    requires forall k :: 0 <= k < |d1| ==> d1[k].index == |d1| - 1 - k
    requires forall k :: 0 <= k < |d2| ==> d2[k].index == |d2| - 1 - k
    ensures d1 == d2
  {
    assert |d1| == |Entries(d1)| == |d2|;
    forall k | 0 <= k < |d1|
      ensures d1[k] == d2[k]
    {
      assert Entries(d1)[k] == Entries(d2)[k];
    }
  }

  /** When priorities identify elements, the order in which a valid queue pops
      its elements depends only on what it holds. */
  lemma DrainDeterminedByContents(q1: PriorityQueue, q2: PriorityQueue)
    requires Valid(q1) && Valid(q2)
    requires Contents(q1.items) == Contents(q2.items)
    requires PrioritiesIdentify(Contents(q1.items))
    ensures Drain(q1) == Drain(q2)
  {
    DrainContents(q1);
    DrainContents(q2);
    DrainIsSorted(q1);
    DrainIsSorted(q2);
    SortedEntriesUnique(Entries(Drain(q1)), Entries(Drain(q2)));
    SameEntriesSameIndices(Drain(q1), Drain(q2));
  }

  /** When priorities identify elements, the pops of a valid queue are the
      one sequence that holds its elements, descends by priority and stamps
      each element with the number of elements popped after it. Together with
      the contract of `Drain`, `DrainContents` and `DrainIsSorted` this
      characterises `Drain` completely. */
  lemma DrainCharacterized(q: PriorityQueue, l: seq<Item>)
    requires Valid(q) && PrioritiesIdentify(Contents(q.items))
    requires Contents(l) == Contents(q.items)
    requires Descending(Entries(l))
    requires forall k :: 0 <= k < |l| ==> l[k].index == |l| - 1 - k
    ensures Drain(q) == l
  {
    DrainContents(q);
    DrainIsSorted(q);
    SortedEntriesUnique(Entries(Drain(q)), Entries(l));
    SameEntriesSameIndices(Drain(q), l);
  }

  lemma CancelOne(a: multiset<Entry>, b: multiset<Entry>, e: Entry)
    requires a + multiset{e} == b + multiset{e}
    ensures a == b
  {
    assert a == (a + multiset{e}) - multiset{e};
    assert b == (b + multiset{e}) - multiset{e};
  }

  /** Pushing an element and then removing it again gives back a queue of the
      same size and contents, which pops in the same order when priorities
      identify elements. */
  lemma PushThenRemove(q: PriorityQueue, x: Item, slot: nat)
    requires Valid(q)
    requires slot < Size(Push(q, x)) && EntryOf(Push(q, x).items[slot]) == EntryOf(x)
    ensures var q1 := Push(q, x);
            var r := Remove(q1, q1.items[slot]).queue;
            && Valid(r)
            && Size(r) == Size(q)
            && Contents(r.items) == Contents(q.items)
            && (PrioritiesIdentify(Contents(q1.items)) ==> Drain(r) == Drain(q))
  {
    var q1 := Push(q, x);
    var h := q1.items[slot];
    assert h.index == slot;
    var t := Remove(q1, h);
    var r := t.queue;
    assert EntryOf(t.item) == EntryOf(x);
    assert Contents(q1.items) == Contents(q.items) + multiset{EntryOf(x)};
    CancelOne(Contents(r.items), Contents(q.items), EntryOf(x));
    if PrioritiesIdentify(Contents(q1.items)) {
      IdentifySubset(Contents(q.items), Contents(q1.items));
      DrainDeterminedByContents(r, q);
    }
  }

  /** One call a client can make. `UpdateOp(h, p)` is the caller setting the
      priority of element `h` to p and then calling `Update(h)`. */
  datatype Op = PushOp(x: Item) | PopOp | UpdateOp(h: Item, priority: int) | RemoveOp(h: Item)

  /** The queue after one client call through the checked operations; a call
      that reports an error leaves the queue as it was. */
  function Step(q: PriorityQueue, op: Op): (r: PriorityQueue)
    ensures Valid(q) ==> Valid(r)
    ensures op.PushOp? ==> Size(r) == Size(q) + 1
    ensures op.PopOp? ==> Size(r) == if Size(q) == 0 then 0 else Size(q) - 1
    ensures op.UpdateOp? ==> Size(r) == Size(q)
    ensures op.RemoveOp? ==> Size(r) == if InRange(q, op.h) then Size(q) - 1 else Size(q)
  {
    match op
    case PushOp(x) => Push(q, x)
    case PopOp =>
      (match TryPop(q)
       case Ok(t) => t.queue
       case Err(_) => q)
    case UpdateOp(h, p) =>
      if !InRange(q, h) then q
      else
        var q1 := Reprioritize(q, h.index, p);
        assert Valid(q) ==> Valid(Update(q1, h)) by {
          if Valid(q) {
            UpdateAfterReprioritize(q, h.index, p);
          }
        }
        Update(q1, h)
    case RemoveOp(h) =>
      (match TryRemove(q, h)
       case Ok(t) => t.queue
       case Err(_) => q)
  }

  function Run(q: PriorityQueue, ops: seq<Op>): (r: PriorityQueue)
    ensures Valid(q) ==> Valid(r)
    decreases |ops|
  {
    if |ops| == 0 then q else Run(Step(q, ops[0]), ops[1..])
  }

  function Pushes(ops: seq<Op>): nat {
    if |ops| == 0 then 0 else (if ops[0].PushOp? then 1 else 0) + Pushes(ops[1..])
  }

  /** The pops and removes along a run that did not report an error. */
  function Removals(q: PriorityQueue, ops: seq<Op>): nat
    decreases |ops|
  {
    if |ops| == 0 then 0
    else
      var op := ops[0];
      var taken := (op.PopOp? && Size(q) > 0) || (op.RemoveOp? && InRange(q, op.h));
      (if taken then 1 else 0) + Removals(Step(q, op), ops[1..])
  }

  /** The size is the initial size plus the pushes minus the successful pops
      and removes, after any sequence of calls. */
  lemma {:induction false} RunSize(q: PriorityQueue, ops: seq<Op>)
    ensures Size(Run(q, ops)) + Removals(q, ops) == Size(q) + Pushes(ops)
    decreases |ops|
  {
    if |ops| > 0 {
      RunSize(Step(q, ops[0]), ops[1..]);
    }
  }
}
