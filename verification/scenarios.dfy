/** The scenarios of the repository's tests, stated and proved as lemmas about
    the model. Elements are written `Item(priority, index, value)` like the
    tests' `testHeapable` literals; the index a caller writes into a fresh
    element is overwritten by `Push`. */
module Scenarios {
  import opened Items
  import opened Queue
  import Heap

  /** Push each element in turn onto q. */
  function PushAll(q: PriorityQueue, xs: seq<Item>): (r: PriorityQueue)
    ensures Size(r) == Size(q) + |xs|
    ensures Contents(r.items) == Contents(q.items) + Contents(xs)
    ensures Valid(q) ==> Valid(r)
    decreases |xs|
  {
    if |xs| == 0 then q
    else
      assert Entries(xs) == [EntryOf(xs[0])] + Entries(xs[1..]);
      PushAll(Queue.Push(q, xs[0]), xs[1..])
  }

  /** The four elements the tests push, in the order they push them. */
  function FourElements(): seq<Item> {
    [Item(10, 0, 0), Item(8, 1, 1), Item(12, 2, 2), Item(9, 3, 3)]
  }

  /** An empty queue has size 0 and pops nothing. */
  lemma EmptyScenario()
    ensures Size(New()) == 0 && Drain(New()) == []
  {
  }

  /** The pops a scenario expects, written as entries by descending priority:
      each entry stamped with the number of entries after it. */
  function Stamped(es: seq<Entry>): (l: seq<Item>)
    ensures Entries(l) == es
    ensures forall k :: 0 <= k < |l| ==> l[k].index == |l| - 1 - k
  {
    var l := seq(|es|, k requires 0 <= k < |es| => Item(es[k].priority, |es| - 1 - k, es[k].value));
    assert forall k :: 0 <= k < |es| ==> Entries(l)[k] == es[k];
    l
  }

  /** A valid queue whose elements are the entries es, by descending
      priority and with distinct priorities, pops them in that order. */
  lemma PopsInOrder(q: PriorityQueue, es: seq<Entry>)
    requires Valid(q) && Contents(q.items) == multiset(es)
    requires PrioritiesIdentify(multiset(es)) && Descending(es)
    ensures Drain(q) == Stamped(es)
  {
    DrainCharacterized(q, Stamped(es));
  }

  /** Distinct priorities in strictly descending order. */
  predicate StrictlyDescending(es: seq<Entry>) {
    forall i :: 0 < i < |es| ==> es[i - 1].priority > es[i].priority
  }

  lemma {:induction false} StrictlyDescendingPairs(es: seq<Entry>)
    requires StrictlyDescending(es)
    ensures forall i, j :: 0 <= i < j < |es| ==> es[i].priority > es[j].priority
    decreases |es|
  {
    if |es| > 1 {
      var t := es[1..];
      assert StrictlyDescending(t) by {
        forall i | 0 < i < |t|
          ensures t[i - 1].priority > t[i].priority
        {
          assert t[i - 1] == es[i] && t[i] == es[i + 1];
        }
      }
      StrictlyDescendingPairs(t);
      forall i, j | 0 <= i < j < |es|
        ensures es[i].priority > es[j].priority
      {
        if i == 0 {
          assert es[1].priority >= es[j].priority by {
            if j > 1 {
              assert t[0] == es[1] && t[j - 1] == es[j];
            }
          }
        } else {
          assert t[i - 1] == es[i] && t[j - 1] == es[j];
        }
      }
    }
  }

  /** Strictly descending entries are descending, and their priorities tell
      them apart. */
  lemma StrictlyDescendingOrder(es: seq<Entry>)
    requires StrictlyDescending(es)
    ensures Descending(es)
    ensures PrioritiesIdentify(multiset(es))
  {
    StrictlyDescendingPairs(es);
    forall e1, e2 | e1 in multiset(es) && e2 in multiset(es) && e1.priority == e2.priority
      ensures e1 == e2
    {
      var i :| 0 <= i < |es| && es[i] == e1;
      var j :| 0 <= j < |es| && es[j] == e2;
      assert i == j;
    }
  }

  /** A valid queue holding m and e, after e's priority is changed to p and
      `Update` is called on it, is valid and holds m and the changed entry. */
  lemma UpdateContents(q: PriorityQueue, slot: nat, p: int, m: multiset<Entry>)
    requires Valid(q) && slot < Size(q)
    requires Contents(q.items) == m + multiset{EntryOf(q.items[slot])}
    ensures var q1 := Reprioritize(q, slot, p);
            var r := Update(q1, q1.items[slot]);
            && InRange(q1, q1.items[slot])
            && Valid(r)
            && Contents(r.items) == m + multiset{Entry(p, q.items[slot].value)}
  {
    var q1 := Reprioritize(q, slot, p);
    var r := Update(q1, q1.items[slot]);
    var e := Entry(p, q.items[slot].value);
    UpdateAfterReprioritize(q, slot, p);
    assert Contents(r.items) + multiset{EntryOf(q.items[slot])}
           == (m + multiset{e}) + multiset{EntryOf(q.items[slot])};
    CancelOne(Contents(r.items), m + multiset{e}, EntryOf(q.items[slot]));
  }

  /** Removing the element in a slot of a valid queue holding m and that
      element leaves a valid queue holding m. */
  lemma RemoveContents(q: PriorityQueue, h: Item, m: multiset<Entry>)
    requires Valid(q) && InRange(q, h)
    requires Contents(q.items) == m + multiset{EntryOf(q.items[h.index])}
    ensures Valid(Remove(q, h).queue)
    ensures Contents(Remove(q, h).queue.items) == m
  {
    var t := Remove(q, h);
    CancelOne(Contents(t.queue.items), m, EntryOf(q.items[h.index]));
  }

  /** The queue the four-element scenarios start from is valid and holds the
      four elements. */
  lemma FourQueue()
    ensures var q := PushAll(New(), FourElements());
            && Valid(q)
            && Contents(q.items) == multiset{Entry(10, 0), Entry(8, 1), Entry(12, 2), Entry(9, 3)}
  {
    assert Entries(FourElements()) == [Entry(10, 0), Entry(8, 1), Entry(12, 2), Entry(9, 3)];
  }

  // How the four pushes lay out the heap, step by step.

  lemma PushTen()
    ensures Heap.Push([], Item(10, 0, 0)) == [Item(10, 0, 0)]
  {
  }

  lemma PushEight()
    ensures Heap.Push([Item(10, 0, 0)], Item(8, 1, 1)) == [Item(10, 0, 0), Item(8, 1, 1)]
  {
  }

  lemma PushTwelve()
    ensures Heap.Push([Item(10, 0, 0), Item(8, 1, 1)], Item(12, 2, 2))
            == [Item(12, 0, 2), Item(8, 1, 1), Item(10, 2, 0)]
  {
  }

  lemma PushNine()
    ensures Heap.Push([Item(12, 0, 2), Item(8, 1, 1), Item(10, 2, 0)], Item(9, 3, 3))
            == [Item(12, 0, 2), Item(9, 1, 3), Item(10, 2, 0), Item(8, 3, 1)]
  {
  }

  /** After pushing 10, 8, 12, 9 the heap is laid out as 12, 9, 10, 8. */
  lemma FourPushesLayout()
    ensures PushAll(New(), FourElements()).items
            == [Item(12, 0, 2), Item(9, 1, 3), Item(10, 2, 0), Item(8, 3, 1)]
  {
    PushTen();
    PushEight();
    PushTwelve();
    PushNine();
    var xs := FourElements();
    assert xs[1..] == [Item(8, 1, 1), Item(12, 2, 2), Item(9, 3, 3)];
    assert xs[1..][1..] == [Item(12, 2, 2), Item(9, 3, 3)];
    assert xs[1..][1..][1..] == [Item(9, 3, 3)];
  }

  // The pops each scenario expects, and the entries they are made of.

  function FourSorted(): seq<Entry> {
    [Entry(12, 2), Entry(10, 0), Entry(9, 3), Entry(8, 1)]
  }

  function UpdatedSorted(): seq<Entry> {
    [Entry(20, 1), Entry(12, 2), Entry(10, 0), Entry(9, 3)]
  }

  function RemovedSorted(): seq<Entry> {
    [Entry(10, 0), Entry(9, 3), Entry(8, 1)]
  }

  lemma FourOrder()
    ensures Descending(FourSorted()) && PrioritiesIdentify(multiset(FourSorted()))
  {
    StrictlyDescendingOrder(FourSorted());
  }

  lemma UpdatedOrder()
    ensures Descending(UpdatedSorted()) && PrioritiesIdentify(multiset(UpdatedSorted()))
  {
    StrictlyDescendingOrder(UpdatedSorted());
  }

  lemma RemovedOrder()
    ensures Descending(RemovedSorted()) && PrioritiesIdentify(multiset(RemovedSorted()))
  {
    StrictlyDescendingOrder(RemovedSorted());
  }

  lemma FourSplit()
    ensures multiset{Entry(10, 0), Entry(8, 1), Entry(12, 2), Entry(9, 3)} == multiset(FourSorted())
  {
  }

  lemma UpdatedSplit()
    ensures multiset{Entry(10, 0), Entry(8, 1), Entry(12, 2), Entry(9, 3)}
            == multiset{Entry(12, 2), Entry(10, 0), Entry(9, 3)} + multiset{Entry(8, 1)}
    ensures multiset{Entry(12, 2), Entry(10, 0), Entry(9, 3)} + multiset{Entry(20, 1)}
            == multiset(UpdatedSorted())
  {
  }

  lemma RemovedSplit()
    ensures multiset{Entry(10, 0), Entry(8, 1), Entry(12, 2), Entry(9, 3)}
            == multiset(RemovedSorted()) + multiset{Entry(12, 2)}
  {
  }

  lemma FourPops()
    ensures Stamped(FourSorted()) == [Item(12, 3, 2), Item(10, 2, 0), Item(9, 1, 3), Item(8, 0, 1)]
    ensures Stamped(UpdatedSorted()) == [Item(20, 3, 1), Item(12, 2, 2), Item(10, 1, 0), Item(9, 0, 3)]
    ensures Stamped(RemovedSorted()) == [Item(10, 2, 0), Item(9, 1, 3), Item(8, 0, 1)]
  {
  }

  /** Pushing 10, 8, 12, 9 gives size 4, and the pops yield 12, 10, 9, 8,
      each stamped with the size left behind. */
  lemma FourElementScenario()
    ensures Size(PushAll(New(), FourElements())) == 4
    ensures Drain(PushAll(New(), FourElements()))
            == [Item(12, 3, 2), Item(10, 2, 0), Item(9, 1, 3), Item(8, 0, 1)]
  {
    FourQueue();
    FourSplit();
    FourOrder();
    FourPops();
    PopsInOrder(PushAll(New(), FourElements()), FourSorted());
  }

  /** A single element pops with its own priority and slot 0. */
  lemma SingleElementScenario()
    ensures Size(PushAll(New(), [Item(1, 0, 0)])) == 1
    ensures Drain(PushAll(New(), [Item(1, 0, 0)])) == [Item(1, 0, 0)]
  {
    var q := PushAll(New(), [Item(1, 0, 0)]);
    assert q.items == [Item(1, 0, 0)];
    assert Queue.Pop(q).queue.items == [];
  }

  /** Raising the element of priority 8 (in slot 3) to 20 and calling
      `Update` on it gives a valid queue of 20, 12, 10 and 9. */
  lemma UpdatedQueue()
    ensures var q := PushAll(New(), FourElements());
            var q1 := Reprioritize(q, 3, 20);
            && q.items[3] == Item(8, 3, 1)
            && InRange(q1, q1.items[3])
            && Valid(Update(q1, q1.items[3]))
            && Contents(Update(q1, q1.items[3]).items) == multiset(UpdatedSorted())
  {
    var q := PushAll(New(), FourElements());
    FourPushesLayout();
    FourQueue();
    UpdatedSplit();
    UpdateContents(q, 3, 20, multiset{Entry(12, 2), Entry(10, 0), Entry(9, 3)});
  }

  /** Raising the element of priority 8 (in slot 3) to 20 and calling
      `Update` on it makes the pops yield 20, 12, 10, 9. */
  lemma UpdateScenario()
    ensures var q := PushAll(New(), FourElements());
            var q1 := Reprioritize(q, 3, 20);
            && q.items[3] == Item(8, 3, 1)
            && TryUpdate(q1, q1.items[3]).Ok?
            && Size(TryUpdate(q1, q1.items[3]).value) == 4
            && Drain(TryUpdate(q1, q1.items[3]).value)
               == [Item(20, 3, 1), Item(12, 2, 2), Item(10, 1, 0), Item(9, 0, 3)]
  {
    var q := PushAll(New(), FourElements());
    var q1 := Reprioritize(q, 3, 20);
    UpdatedQueue();
    UpdatedOrder();
    FourPops();
    PopsInOrder(Update(q1, q1.items[3]), UpdatedSorted());
  }

  /** A single element raised from 1 to 10 pops with priority 10 and slot 0. */
  lemma SingleUpdateScenario()
    ensures var q := PushAll(New(), [Item(1, 0, 0)]);
            var q1 := Reprioritize(q, 0, 10);
            && TryUpdate(q1, q1.items[0]).Ok?
            && Drain(TryUpdate(q1, q1.items[0]).value) == [Item(10, 0, 0)]
  {
    var q := PushAll(New(), [Item(1, 0, 0)]);
    assert q.items == [Item(1, 0, 0)];
    var q1 := Reprioritize(q, 0, 10);
    var u := Update(q1, q1.items[0]);
    assert u.items == [Item(10, 0, 0)];
    assert Queue.Pop(u).queue.items == [];
  }

  /** Removing the element of priority 12 (in slot 0) leaves a valid queue
      of 10, 9 and 8. */
  lemma RemovedQueue()
    ensures var q := PushAll(New(), FourElements());
            && q.items[0] == Item(12, 0, 2)
            && InRange(q, q.items[0])
            && Valid(Remove(q, q.items[0]).queue)
            && Contents(Remove(q, q.items[0]).queue.items) == multiset(RemovedSorted())
  {
    var q := PushAll(New(), FourElements());
    FourPushesLayout();
    FourQueue();
    RemovedSplit();
    RemoveContents(q, q.items[0], multiset(RemovedSorted()));
  }

  /** Removing the element of priority 12 (in slot 0) leaves size 3, and the
      pops yield 10, 9, 8. */
  lemma RemoveScenario()
    ensures var q := PushAll(New(), FourElements());
            && q.items[0] == Item(12, 0, 2)
            && TryRemove(q, q.items[0]).Ok?
            && Size(TryRemove(q, q.items[0]).value.queue) == 3
            && Drain(TryRemove(q, q.items[0]).value.queue)
               == [Item(10, 2, 0), Item(9, 1, 3), Item(8, 0, 1)]
  {
    var q := PushAll(New(), FourElements());
    RemovedQueue();
    RemovedOrder();
    FourPops();
    PopsInOrder(Remove(q, q.items[0]).queue, RemovedSorted());
  }

  /** Removing the only element leaves an empty queue. */
  lemma RemoveOnlyScenario()
    ensures var q := PushAll(New(), [Item(1, 0, 0)]);
            && TryRemove(q, q.items[0]).Ok?
            && Size(TryRemove(q, q.items[0]).value.queue) == 0
  {
    var q := PushAll(New(), [Item(1, 0, 0)]);
    assert q.items == [Item(1, 0, 0)];
  }

  /** `Pop` on a fresh queue, and on a queue emptied by `Pop`, is an error. */
  lemma PopErrorScenario()
    ensures TryPop(New()) == Err(EmptyQueue)
    ensures TryPop(Queue.Pop(Queue.Push(New(), Item(1, 0, 0))).queue) == Err(EmptyQueue)
  {
  }

  /** `Update` and `Remove` fail on an empty queue, and on an element whose
      recorded slot 1 is not below the size 1. */
  lemma IndexErrorScenario()
    ensures TryUpdate(New(), Item(10, 0, 0)) == Err(InvalidIndex)
    ensures TryUpdate(Queue.Push(New(), Item(10, 0, 0)), Item(5, 1, 1)) == Err(InvalidIndex)
    ensures TryRemove(New(), Item(10, 0, 0)) == Err(InvalidIndex)
    ensures TryRemove(Queue.Push(New(), Item(10, 0, 0)), Item(5, 1, 1)) == Err(InvalidIndex)
  {
  }
}
