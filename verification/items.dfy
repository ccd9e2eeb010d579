/** The element contract `Heapable` and the backing slice `items` of the queue.

    Elements are modelled on the concrete element the repository's tests use:
    an integer priority compared with strict `>`, the slot the queue last
    stamped into the element, and an opaque payload. */
module Items {

  /** One element as the queue holds it: its priority, the slot recorded in it
      by `SetIndex`, and the caller's payload. */
  datatype Item = Item(priority: int, index: int, value: int)

  /** What an element is apart from the queue's bookkeeping. Multisets of
      entries describe the contents of a queue independently of positions. */
  datatype Entry = Entry(priority: int, value: int)

  function EntryOf(x: Item): Entry {
    Entry(x.priority, x.value)
  }

  function Entries(it: seq<Item>): (es: seq<Entry>)
  {
    seq(|it|, k requires 0 <= k < |it| => EntryOf(it[k]))
  }

  /** The elements of a slice, as a multiset of entries. */
  function Contents(it: seq<Item>): multiset<Entry> {
    multiset(Entries(it))
  }

  /** `Priority`: `a` is strictly preferred over `b`. */
  predicate Higher(a: Item, b: Item) {
    a.priority > b.priority
  }

  /** `Less(i, j)`: the element in slot i is preferred over the one in slot j.
      The preference is strict: no slot is preferred over itself, nor over a
      slot holding an equal entry. */
  predicate Less(it: seq<Item>, i: nat, j: nat)
    requires i < |it| && j < |it|
    ensures Less(it, i, j) ==> i != j && EntryOf(it[i]) != EntryOf(it[j])
  {
    Higher(it[i], it[j])
  }

  /** Index coherence: every element records its own slot. */
  predicate Coherent(it: seq<Item>) {
    forall k :: 0 <= k < |it| ==> it[k].index == k
  }

  /** `Swap(i, j)`: exchange two slots and restamp both moved elements. */
  function Swap(it: seq<Item>, i: nat, j: nat): (r: seq<Item>)
    requires i < |it| && j < |it|
    ensures |r| == |it|
    ensures EntryOf(r[i]) == EntryOf(it[j]) && EntryOf(r[j]) == EntryOf(it[i])
    ensures r[i].index == i && r[j].index == j
    ensures forall k :: 0 <= k < |it| && k != i && k != j ==> r[k] == it[k]
    ensures Contents(r) == Contents(it)
    ensures Coherent(it) ==> Coherent(r)
  {
    var r := it[i := it[j].(index := i)][j := it[i].(index := j)];
    assert Entries(r) == Entries(it)[i := EntryOf(it[j])][j := EntryOf(it[i])];
    r
  }

  /** `items.Push`: append an element, stamped with the slot it lands in. */
  function Push(it: seq<Item>, x: Item): (r: seq<Item>)
    ensures |r| == |it| + 1
    ensures r[..|it|] == it
    ensures EntryOf(r[|it|]) == EntryOf(x) && r[|it|].index == |it|
    ensures Contents(r) == Contents(it) + multiset{EntryOf(x)}
    ensures Coherent(it) ==> Coherent(r)
  {
    var r := it + [x.(index := |it|)];
    assert Entries(r) == Entries(it) + [EntryOf(x)];
    r
  }

  /** The outcome of removing one element: what is left, and the element. */
  datatype Popped = Popped(rest: seq<Item>, item: Item)

  /** `items.Pop`: cut off the last element. Its recorded slot is left as it
      was, so in a coherent slice it names the new length. */
  function Pop(it: seq<Item>): (r: Popped)
    requires |it| > 0
    ensures |r.rest| == |it| - 1
    ensures r.rest == it[..|it| - 1] && r.item == it[|it| - 1]
    ensures Contents(it) == Contents(r.rest) + multiset{EntryOf(r.item)}
    ensures Coherent(it) ==> Coherent(r.rest) && r.item.index == |r.rest|
  {
    var n := |it| - 1;
    assert it == it[..n] + [it[n]];
    assert Entries(it) == Entries(it[..n]) + [EntryOf(it[n])];
    Popped(it[..n], it[n])
  }
}
