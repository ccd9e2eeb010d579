/** The sift logic of Go's `container/heap` (`up`, `down`, `Push`, `Pop`, `Fix`,
    `Remove`) as the queue drives it over its `items` slice. Every exchange of
    slots goes through `Items.Swap`, which restamps both moved elements. */
module Heap {
  import opened Items

  /** Slot of the parent of slot k. For k > 0 Go's truncating division and
      Dafny's Euclidean division agree, since k - 1 is not negative. */
  function Parent(k: nat): nat
    requires k > 0
  {
    (k - 1) / 2
  }

  lemma ParentOfChild(k: nat, i: nat)
    requires k > 0
    ensures Parent(k) == i <==> k == 2 * i + 1 || k == 2 * i + 2
    ensures Parent(k) < k
  {
  }

  /** Heap order on the first n slots: no child is preferred over its parent. */
  predicate HeapOrdered(it: seq<Item>, n: nat)
    requires n <= |it|
  {
    forall k :: 0 < k < n ==> !Less(it, k, Parent(k))
  }

  predicate IsHeap(it: seq<Item>) {
    HeapOrdered(it, |it|)
  }

  /** Heap order on the first n slots may fail only at the edges that touch
      slot i; across i, its parent is still no worse than i's children. This
      is what holds after one element's priority changes in place, or after
      slot i receives another element of the heap. */
  predicate AlmostHeap(it: seq<Item>, i: nat, n: nat)
    requires n <= |it|
  {
    && (forall k :: 0 < k < n && k != i && Parent(k) != i ==> !Less(it, k, Parent(k)))
    && (0 < i < n ==> forall k :: 0 < k < n && Parent(k) == i ==> !Less(it, k, Parent(i)))
  }

  /** No child of slot i (within the first n) is preferred over slot i. */
  predicate ChildrenOrdered(it: seq<Item>, i: nat, n: nat)
    requires n <= |it|
  {
    forall k :: 0 < k < n && Parent(k) == i ==> !Less(it, k, i)
  }

  /** `up(j)`: swap slot j with its parent while it is preferred over it. */
  function Up(it: seq<Item>, j: nat): (r: seq<Item>)
    requires j < |it|
    ensures |r| == |it|
    ensures forall k :: j < k < |it| ==> r[k] == it[k]
    ensures Contents(r) == Contents(it)
    ensures Coherent(it) ==> Coherent(r)
    decreases j
  {
    // Go computes the parent of slot 0 as (0 - 1) / 2 == 0 and stops there.
    if j == 0 then it
    else
      var i := Parent(j);
      if !Less(it, j, i) then it
      else Up(Swap(it, i, j), i)
  }

  /** The state `down` leaves behind: the slice and the final slot of the
      element it started with. */
  datatype Sifted = Sifted(items: seq<Item>, pos: nat)

  /** `down(i, n)`: within the first n slots, swap slot i with its preferred
      child while that child is preferred over it. Go's boolean result,
      "the element moved", is `pos > i`. */
  function Down(it: seq<Item>, i: nat, n: nat): (r: Sifted)
    requires n <= |it|
    ensures |r.items| == |it|
    ensures r.pos >= i
    ensures r.pos == i ==> r.items == it
    ensures forall k :: n <= k < |it| ==> r.items[k] == it[k]
    ensures Contents(r.items) == Contents(it)
    ensures Coherent(it) ==> Coherent(r.items)
    decreases n - i
  {
    var j1 := 2 * i + 1;
    if j1 >= n then Sifted(it, i)
    else
      var j := if j1 + 1 < n && Less(it, j1 + 1, j1) then j1 + 1 else j1;
      if !Less(it, j, i) then Sifted(it, i)
      else Down(Swap(it, i, j), j, n)
  }

  /** One step of `up` keeps the sift-up invariant one level higher. */
  lemma UpStep(it: seq<Item>, j: nat, n: nat)
    requires 0 < j < n <= |it|
    requires AlmostHeap(it, j, n) && ChildrenOrdered(it, j, n)
    requires Less(it, j, Parent(j))
    ensures AlmostHeap(Swap(it, Parent(j), j), Parent(j), n)
    ensures ChildrenOrdered(Swap(it, Parent(j), j), Parent(j), n)
  {
    var i := Parent(j);
    var r := Swap(it, i, j);
    forall k | 0 < k < n && Parent(k) == i
      ensures !Less(r, k, i)
    {
      ParentOfChild(k, i);
      if k != j {
        ParentOfChild(k, j);
      }
    }
    forall k | 0 < k < n && k != i && Parent(k) != i
      ensures !Less(r, k, Parent(k))
    {
      ParentOfChild(k, Parent(k));
      if Parent(k) == j {
        assert !Less(it, k, Parent(j));
      }
    }
    if 0 < i {
      forall k | 0 < k < n && Parent(k) == i
        ensures !Less(r, k, Parent(i))
      {
        ParentOfChild(k, i);
        ParentOfChild(i, Parent(i));
        assert !Less(it, i, Parent(i));
        if k != j {
          assert !Less(it, k, i);
        }
      }
    }
  }

  /** A slot whose first child lies beyond the first n slots has no children there. */
  lemma NoChildren(i: nat, n: nat)
    requires n <= 2 * i + 1
    ensures forall k :: 0 < k < n ==> Parent(k) != i
  {
    forall k | 0 < k < n
      ensures Parent(k) != i
    {
      ParentOfChild(k, i);
    }
  }

  /** Heap order on the first n slots is heap order of the prefix. */
  lemma PrefixIsHeap(it: seq<Item>, n: nat)
    requires n <= |it| && HeapOrdered(it, n)
    ensures IsHeap(it[..n])
  {
    var p := it[..n];
    forall k | 0 < k < n
      ensures !Less(p, k, Parent(k))
    {
      ParentOfChild(k, Parent(k));
      assert p[k] == it[k] && p[Parent(k)] == it[Parent(k)];
    }
  }

  /** `up` restores heap order from the sift-up invariant. */
  lemma {:induction false} UpRestoresHeap(it: seq<Item>, j: nat, n: nat)
    requires j < n <= |it|
    requires AlmostHeap(it, j, n) && ChildrenOrdered(it, j, n)
    ensures HeapOrdered(Up(it, j), n)
    decreases j
  {
    if j == 0 {
      forall k | 0 < k < n
        ensures !Less(it, k, Parent(k))
      {
      }
    } else if !Less(it, j, Parent(j)) {
      forall k | 0 < k < n
        ensures !Less(it, k, Parent(k))
      {
      }
    } else {
      UpStep(it, j, n);
      UpRestoresHeap(Swap(it, Parent(j), j), Parent(j), n);
    }
  }

  /** One step of `down` moves the invariant to the chosen child. */
  lemma DownStep(it: seq<Item>, i: nat, j: nat, n: nat)
    requires n <= |it| && 2 * i + 1 < n
    requires j == 2 * i + 1 || (j == 2 * i + 2 && j < n)
    requires forall k :: 0 < k < n && Parent(k) == i ==> !Less(it, k, j)
    requires AlmostHeap(it, i, n)
    requires Less(it, j, i)
    ensures AlmostHeap(Swap(it, i, j), j, n)
  {
    var r := Swap(it, i, j);
    ParentOfChild(j, i);
    forall k | 0 < k < n && k != j && Parent(k) != j
      ensures !Less(r, k, Parent(k))
    {
      ParentOfChild(k, Parent(k));
      if Parent(k) == i {
        assert !Less(it, k, j);
      } else if k == i {
        assert !Less(it, j, Parent(i));
      }
    }
    forall k | 0 < k < n && Parent(k) == j
      ensures !Less(r, k, Parent(j))
    {
      ParentOfChild(k, j);
      assert !Less(it, k, j);
    }
  }

  /** The child `down` picks is no worse than any child of slot i. */
  lemma PreferredChild(it: seq<Item>, i: nat, j: nat, n: nat)
    requires n <= |it| && 2 * i + 1 < n
    requires j == if 2 * i + 2 < n && Less(it, 2 * i + 2, 2 * i + 1) then 2 * i + 2 else 2 * i + 1
    ensures forall k :: 0 < k < n && Parent(k) == i ==> !Less(it, k, j)
  {
    forall k | 0 < k < n && Parent(k) == i
      ensures !Less(it, k, j)
    {
      ParentOfChild(k, i);
    }
  }

  /** A slot no worse than its children and no better than its parent mends
      an almost-heap. */
  lemma Settled(it: seq<Item>, i: nat, n: nat)
    requires n <= |it| && i < n
    requires AlmostHeap(it, i, n)
    requires ChildrenOrdered(it, i, n)
    requires i > 0 ==> !Less(it, i, Parent(i))
    ensures HeapOrdered(it, n)
  {
  }

  /** `down` either leaves the slice alone, in which case slot i is no worse
      than its children, or moves the element and leaves the first n slots in
      heap order. */
  lemma {:induction false} DownRestoresHeap(it: seq<Item>, i: nat, n: nat)
    requires n <= |it|
    requires AlmostHeap(it, i, n)
    ensures Down(it, i, n).pos > i ==> HeapOrdered(Down(it, i, n).items, n)
    ensures Down(it, i, n).pos == i ==> ChildrenOrdered(it, i, n)
    decreases n - i
  {
    var j1 := 2 * i + 1;
    if j1 >= n {
      NoChildren(i, n);
    } else {
      var j := if j1 + 1 < n && Less(it, j1 + 1, j1) then j1 + 1 else j1;
      PreferredChild(it, i, j, n);
      if !Less(it, j, i) {
        forall k | 0 < k < n && Parent(k) == i
          ensures !Less(it, k, i)
        {
          assert !Less(it, k, j);
        }
      } else {
        DownStep(it, i, j, n);
        var r := Swap(it, i, j);
        DownRestoresHeap(r, j, n);
        if Down(r, j, n).pos == j {
          ParentOfChild(j, i);
          Settled(r, j, n);
        }
      }
    }
  }

  /** What `heap.Fix` does, within the first n slots: try `down`, and when the
      element did not move, `up`. */
  function FixAt(it: seq<Item>, i: nat, n: nat): (r: seq<Item>)
    requires i < n <= |it|
    ensures |r| == |it|
    ensures forall k :: n <= k < |it| ==> r[k] == it[k]
    ensures Contents(r) == Contents(it)
    ensures Coherent(it) ==> Coherent(r)
  {
    var s := Down(it, i, n);
    if s.pos > i then s.items else Up(s.items, i)
  }

  /** Fixing at i repairs any violation confined to the edges at slot i. */
  lemma FixRestoresHeap(it: seq<Item>, i: nat, n: nat)
    requires i < n <= |it|
    requires AlmostHeap(it, i, n)
    ensures HeapOrdered(FixAt(it, i, n), n)
  {
    DownRestoresHeap(it, i, n);
    if Down(it, i, n).pos == i {
      UpRestoresHeap(it, i, n);
    }
  }

  /** A heap is in particular almost a heap at every slot. */
  lemma HeapIsAlmostHeap(it: seq<Item>, i: nat, n: nat)
    requires n <= |it| && HeapOrdered(it, n)
    ensures AlmostHeap(it, i, n)
  {
    if 0 < i < n {
      forall k | 0 < k < n && Parent(k) == i
        ensures !Less(it, k, Parent(i))
      {
        ParentOfChild(k, i);
        assert !Less(it, i, Parent(i));
      }
    }
  }

  /** Changing the priority of one element of a heap, in place, breaks heap
      order at most at the edges of its slot. */
  lemma ReprioritizedIsAlmostHeap(it: seq<Item>, i: nat, p: int)
    requires i < |it| && IsHeap(it)
    ensures AlmostHeap(it[i := it[i].(priority := p)], i, |it|)
  {
    var r := it[i := it[i].(priority := p)];
    if 0 < i {
      forall k | 0 < k < |it| && Parent(k) == i
        ensures !Less(r, k, Parent(i))
      {
        ParentOfChild(k, i);
        assert !Less(it, i, Parent(i));
        assert !Less(it, k, i);
      }
    }
  }

  /** The root of a heap is an element of highest priority. */
  lemma {:induction false} RootIsMax(it: seq<Item>, n: nat, k: nat)
    requires k < n <= |it| && HeapOrdered(it, n)
    ensures it[k].priority <= it[0].priority
    decreases k
  {
    if k > 0 {
      ParentOfChild(k, Parent(k));
      RootIsMax(it, n, Parent(k));
    }
  }

  lemma RootIsMaxOfContents(it: seq<Item>)
    requires 0 < |it| && IsHeap(it)
    ensures forall e :: e in Contents(it) ==> e.priority <= it[0].priority
  {
    forall e | e in Contents(it)
      ensures e.priority <= it[0].priority
    {
      var es := Entries(it);
      var k :| 0 <= k < |es| && es[k] == e;
      RootIsMax(it, |it|, k);
    }
  }

  /** `heap.Push`: append, then sift the new element up. */
  function Push(it: seq<Item>, x: Item): (r: seq<Item>)
    ensures |r| == |it| + 1
    ensures Contents(r) == Contents(it) + multiset{EntryOf(x)}
    ensures Coherent(it) ==> Coherent(r)
    ensures IsHeap(it) ==> IsHeap(r)
  {
    var n := |it|;
    var a := Items.Push(it, x);
    assert IsHeap(it) ==> IsHeap(Up(a, n)) by {
      if IsHeap(it) {
        forall k | 0 < k < n + 1 && k != n && Parent(k) != n
          ensures !Less(a, k, Parent(k))
        {
          ParentOfChild(k, Parent(k));
          assert a[k] == it[k] && a[Parent(k)] == it[Parent(k)];
        }
        NoChildren(n, n + 1);
        UpRestoresHeap(a, n, n + 1);
      }
    }
    Up(a, n)
  }

  /** `heap.Pop`: move the root to the last slot, sift the new root down over
      the remaining slots, and cut off the last slot. */
  function Pop(it: seq<Item>): (r: Popped)
    requires |it| > 0
    ensures |r.rest| == |it| - 1
    ensures EntryOf(r.item) == EntryOf(it[0]) && r.item.index == |it| - 1
    ensures Contents(it) == Contents(r.rest) + multiset{EntryOf(r.item)}
    ensures Coherent(it) ==> Coherent(r.rest)
    ensures IsHeap(it) ==> IsHeap(r.rest)
    ensures IsHeap(it) ==> forall e :: e in Contents(it) ==> e.priority <= r.item.priority
  {
    var n := |it| - 1;
    var a := Swap(it, 0, n);
    var s := Down(a, 0, n);
    var r := Items.Pop(s.items);
    assert IsHeap(it) ==> IsHeap(r.rest) by {
      if IsHeap(it) {
        forall k | 0 < k < n && k != 0 && Parent(k) != 0
          ensures !Less(a, k, Parent(k))
        {
          ParentOfChild(k, Parent(k));
        }
        DownRestoresHeap(a, 0, n);
        if s.pos == 0 {
          forall k | 0 < k < n
            ensures !Less(a, k, Parent(k))
          {
          }
        }
        PrefixIsHeap(s.items, n);
      }
    }
    assert IsHeap(it) ==> forall e :: e in Contents(it) ==> e.priority <= r.item.priority by {
      if IsHeap(it) {
        RootIsMaxOfContents(it);
      }
    }
    r
  }

  /** `heap.Fix(i)`: re-establish heap order after the element in slot i
      changed in place. */
  function Fix(it: seq<Item>, i: nat): (r: seq<Item>)
    requires i < |it|
    ensures |r| == |it|
    ensures Contents(r) == Contents(it)
    ensures Coherent(it) ==> Coherent(r)
    ensures AlmostHeap(it, i, |it|) ==> IsHeap(r)
  {
    assert AlmostHeap(it, i, |it|) ==> IsHeap(FixAt(it, i, |it|)) by {
      if AlmostHeap(it, i, |it|) {
        FixRestoresHeap(it, i, |it|);
      }
    }
    FixAt(it, i, |it|)
  }

  /** Moving the last element of a heap into slot i, and the element of slot i
      to the end, leaves the other slots almost a heap at i. */
  lemma SwapWithLastIsAlmostHeap(it: seq<Item>, i: nat)
    requires i < |it| - 1 && IsHeap(it)
    ensures AlmostHeap(Swap(it, i, |it| - 1), i, |it| - 1)
  {
    var n := |it| - 1;
    var a := Swap(it, i, n);
    forall k | 0 < k < n && k != i && Parent(k) != i
      ensures !Less(a, k, Parent(k))
    {
      ParentOfChild(k, Parent(k));
    }
    if 0 < i {
      forall k | 0 < k < n && Parent(k) == i
        ensures !Less(a, k, Parent(i))
      {
        ParentOfChild(k, i);
        ParentOfChild(i, Parent(i));
        assert !Less(it, i, Parent(i));
        assert !Less(it, k, i);
      }
    }
  }

  /** `heap.Remove(i)`: move slot i to the last slot, fix slot i over the
      remaining slots unless it was the last one, and cut off the last slot. */
  function Remove(it: seq<Item>, i: nat): (r: Popped)
    requires i < |it|
    ensures |r.rest| == |it| - 1
    ensures EntryOf(r.item) == EntryOf(it[i])
    ensures Contents(it) == Contents(r.rest) + multiset{EntryOf(r.item)}
    ensures Coherent(it) ==> Coherent(r.rest) && r.item.index == |r.rest|
    ensures IsHeap(it) ==> IsHeap(r.rest)
  {
    var n := |it| - 1;
    if n == i then
      assert IsHeap(it) ==> IsHeap(it[..n]) by {
        if IsHeap(it) {
          PrefixIsHeap(it, n);
        }
      }
      Items.Pop(it)
    else
      var a := Swap(it, i, n);
      var b := FixAt(a, i, n);
      assert IsHeap(it) ==> IsHeap(b[..n]) by {
        if IsHeap(it) {
          SwapWithLastIsAlmostHeap(it, i);
          FixRestoresHeap(a, i, n);
          PrefixIsHeap(b, n);
        }
      }
      Items.Pop(b)
  }
}
