// The scheduler's priority queue (orchestrate/priority.go): a binary heap that
// refines a list sorted by priority, highest first, then by insertion order.
module PriorityQueues {
  import opened Types

  datatype Item = Item(nodeId: NodeId, priority: int, order: nat)

  // Less: higher priority first, first in first out among equals.
  predicate Before(a: Item, b: Item) {
    if a.priority != b.priority then a.priority > b.priority else a.order < b.order
  }

  // ----- the sorted list the heap stands for -----

  ghost predicate Sorted(view: seq<Item>) {
    forall i, j :: 0 <= i < j < |view| ==> Before(view[i], view[j])
  }

  ghost function Insert(view: seq<Item>, x: Item): seq<Item> {
    if view == [] then [x]
    else if Before(x, view[0]) then [x] + view
    else [view[0]] + Insert(view[1..], x)
  }

  lemma {:induction false} InsertMembers(view: seq<Item>, x: Item)
    ensures multiset(Insert(view, x)) == multiset(view) + multiset{x}
    ensures forall y :: y in Insert(view, x) <==> y == x || y in view
  {
    if view != [] {
      hide Before;
      assert view == [view[0]] + view[1..];
      InsertMembers(view[1..], x);
    }
  }

  lemma {:induction false} InsertSorted(view: seq<Item>, x: Item)
    requires Sorted(view) && forall y :: y in view ==> y.order < x.order
    ensures Sorted(Insert(view, x))
    ensures multiset(Insert(view, x)) == multiset(view) + multiset{x}
    ensures forall y :: y in Insert(view, x) <==> y == x || y in view
  {
    InsertMembers(view, x);
    if view != [] {
      var rest := view[1..];
      assert view == [view[0]] + rest;
      InsertMembers(rest, x);
      if Before(x, view[0]) {
        SortedCons(x, view);
      } else {
        InsertSorted(rest, x);
        assert forall y :: y in rest ==> Before(view[0], y);
        SortedCons(view[0], Insert(rest, x));
      }
    }
  }

  lemma SortedCons(x: Item, rest: seq<Item>)
    requires Sorted(rest)
    requires (forall y :: y in rest ==> Before(x, y)) || (rest != [] && Before(x, rest[0]))
    ensures Sorted([x] + rest)
  {
    var s := [x] + rest;
    forall i, j | 0 <= i < j < |s|
      ensures Before(s[i], s[j])
    {
      if i == 0 {
        assert s[j] in rest;
        assert j > 1 ==> Before(rest[0], rest[j - 1]);
      }
    }
  }

  // The queued node IDs, in the order in which they will be popped.
  ghost function QueuedIds(view: seq<Item>): seq<NodeId> {
    seq(|view|, i requires 0 <= i < |view| => view[i].nodeId)
  }

  lemma {:induction false} InsertIds(view: seq<Item>, x: Item)
    ensures forall n :: n in QueuedIds(Insert(view, x)) <==> n == x.nodeId || n in QueuedIds(view)
    ensures Distinct(QueuedIds(view)) && x.nodeId !in QueuedIds(view) ==> Distinct(QueuedIds(Insert(view, x)))
  {
    var ids := QueuedIds(Insert(view, x));
    if view == [] {
      assert ids == [x.nodeId];
    } else if Before(x, view[0]) {
      assert ids == [x.nodeId] + QueuedIds(view);
    } else {
      InsertIds(view[1..], x);
      assert ids == [view[0].nodeId] + QueuedIds(Insert(view[1..], x));
      assert QueuedIds(view) == [view[0].nodeId] + QueuedIds(view[1..]);
      if Distinct(QueuedIds(view)) {
        assert QueuedIds(view)[1..] == QueuedIds(view[1..]);
        assert forall k :: 1 <= k < |view| ==> QueuedIds(view)[0] != QueuedIds(view)[k];
        assert view[0].nodeId !in QueuedIds(view[1..]);
      }
    }
  }

  // ----- the heap -----

  function Parent(j: int): int
    requires j >= 1
  {
    (j - 1) / 2
  }

  // Every child is no better than its parent, among the first n items.
  ghost predicate HeapExcept(items: seq<Item>, n: int, child: int, parent: int) {
    0 <= n <= |items| &&
    forall i, j :: 0 <= i < j < n && i == Parent(j) && j != child && i != parent ==> !Before(items[j], items[i])
  }

  // The children of k are no better than its parent.
  ghost predicate Bridged(items: seq<Item>, n: int, k: int) {
    0 <= n <= |items| &&
    forall h, i, j :: 0 <= h < i < j < n && i == k && i == Parent(j) && h == Parent(i) ==> !Before(items[j], items[h])
  }

  ghost predicate Heap(items: seq<Item>, n: int) {
    HeapExcept(items, n, -1, -1)
  }

  function Swap(items: seq<Item>, i: int, j: int): seq<Item>
    requires 0 <= i < |items| && 0 <= j < |items|
  {
    items[i := items[j]][j := items[i]]
  }

  lemma SwapMultiset(items: seq<Item>, i: int, j: int)
    requires 0 <= i < |items| && 0 <= j < |items|
    ensures multiset(Swap(items, i, j)) == multiset(items)
  {
  }

  // Sifting the late item j above its parent.
  lemma UpStep(items: seq<Item>, n: int, j: int)
    requires 1 <= j < n && HeapExcept(items, n, j, -1) && Bridged(items, n, j)
    requires Before(items[j], items[Parent(j)])
    ensures HeapExcept(Swap(items, Parent(j), j), n, Parent(j), -1)
    ensures Bridged(Swap(items, Parent(j), j), n, Parent(j))
  {
  }

  // Sifting the item i below its better child j.
  lemma DownStep(items: seq<Item>, n: int, i: int, j: int)
    requires 0 <= i < j < n && i == Parent(j) && HeapExcept(items, n, -1, i) && Bridged(items, n, i)
    requires Before(items[j], items[i])
    requires forall k :: i < k < n && i == Parent(k) ==> !Before(items[k], items[j])
    ensures HeapExcept(Swap(items, i, j), n, -1, j)
    ensures Bridged(Swap(items, i, j), n, j)
  {
  }

  lemma {:induction false} RootIsBest(items: seq<Item>, n: int, k: int)
    requires Heap(items, n) && 0 <= k < n
    ensures !Before(items[k], items[0])
    decreases k
  {
    if k > 0 {
      RootIsBest(items, n, Parent(k));
      assert !Before(items[k], items[Parent(k)]);
    }
  }

  // What the heap, the insertion counter and the sorted list have to do with each other.
  ghost predicate Refines(items: seq<Item>, counter: nat, view: seq<Item>) {
    && Heap(items, |items|)
    && Sorted(view)
    && multiset(view) == multiset(items)
    && forall y :: y in view ==> y.order < counter
  }

  lemma HeadIsRoot(items: seq<Item>, counter: nat, view: seq<Item>)
    requires Refines(items, counter, view) && |items| > 0
    ensures |view| == |items| && view[0] == items[0]
  {
    assert |multiset(view)| == |view| && |multiset(items)| == |items|;
    assert view[0] in multiset(items) && items[0] in multiset(view);
    var k :| 0 <= k < |items| && items[k] == view[0];
    RootIsBest(items, |items|, k);
    var i :| 0 <= i < |view| && view[i] == items[0];
  }

  lemma HeadIsBest(view: seq<Item>)
    requires Sorted(view) && view != []
    ensures forall y :: y in view ==>
      y.priority <= view[0].priority && (y.priority == view[0].priority ==> view[0].order <= y.order)
  {
    forall y | y in view
      ensures y.priority <= view[0].priority && (y.priority == view[0].priority ==> view[0].order <= y.order)
    {
      var i :| 0 <= i < |view| && view[i] == y;
    }
  }

  class PriorityQueue {
    var items: seq<Item>
    var counter: nat
    ghost var view: seq<Item>

    ghost predicate Valid()
      reads this
    {
      Refines(items, counter, view)
    }

    constructor ()
      ensures Valid() && view == []
    {
      items, counter, view := [], 0, [];
    }

    // heap.up
    method Up(start: nat)
      requires start < |items|
      requires HeapExcept(items, |items|, start, -1) && Bridged(items, |items|, start)
      modifies this`items
      ensures Heap(items, |items|) && multiset(items) == multiset(old(items))
    {
      hide HeapExcept, Bridged, Before;
      var j := start;
      while true
        invariant 0 <= j < |items|
        invariant HeapExcept(items, |items|, j, -1) && Bridged(items, |items|, j)
        invariant multiset(items) == multiset(old(items))
        decreases j
      {
        if j == 0 || !Before(items[j], items[Parent(j)]) {
          UpDone(items, |items|, j);
          break;
        }
        UpStep(items, |items|, j);
        SwapMultiset(items, Parent(j), j);
        items := Swap(items, Parent(j), j);
        j := Parent(j);
      }
    }

    // heap.down on the first n items
    method Down(n: nat)
      requires n <= |items| && HeapExcept(items, n, -1, 0)
      modifies this`items
      ensures |items| == |old(items)| && items[n..] == old(items)[n..]
      ensures Heap(items, n) && multiset(items) == multiset(old(items))
    {
      hide HeapExcept, Bridged, Before;
      var i := 0;
      RootBridged(items, n);
      while true
        invariant 0 <= i && |items| == |old(items)|
        invariant HeapExcept(items, n, -1, i) && Bridged(items, n, i)
        invariant multiset(items) == multiset(old(items))
        invariant items[n..] == old(items)[n..]
        decreases n - i
      {
        var j1 := 2 * i + 1;
        if j1 >= n {
          DownLeaf(items, n, i);
          break;
        }
        var j := j1;
        if j1 + 1 < n && Before(items[j1 + 1], items[j1]) {
          j := j1 + 1;
        }
        BetterChild(items, n, i, j);
        if !Before(items[j], items[i]) {
          DownDone(items, n, i, j);
          break;
        }
        DownStep(items, n, i, j);
        SwapMultiset(items, i, j);
        assert Swap(items, i, j)[n..] == items[n..];
        items := Swap(items, i, j);
        i := j;
      }
    }

    // heap.Push
    method Push(nodeId: NodeId, priority: int)
      requires Valid()
      modifies this
      ensures Valid()
      ensures view == Insert(old(view), Item(nodeId, priority, old(counter)))
      ensures multiset(view) == multiset(old(view)) + multiset{Item(nodeId, priority, old(counter))}
      ensures forall y :: y in old(view) ==> y.order < old(counter)
    {
      var item := Item(nodeId, priority, counter);
      PushAppend(items, item);
      InsertSorted(view, item);
      counter := counter + 1;
      items := items + [item];
      view := Insert(view, item);
      Up(|items| - 1);
    }

    // heap.Pop
    method Pop() returns (nodeId: NodeId)
      requires Valid() && view != []
      modifies this
      ensures Valid()
      ensures nodeId == old(view)[0].nodeId && view == old(view)[1..]
      // nobody has a higher priority, or the same one and came earlier
      ensures forall y :: y in old(view) ==>
        && y.priority <= old(view)[0].priority
        && (y.priority == old(view)[0].priority ==> old(view)[0].order <= y.order)
    {
      HeadIsBest(view);
      ghost var items0, view0 := items, view;
      NonEmpty(items, counter, view);
      HeadIsRoot(items, counter, view);
      var n := |items| - 1;
      PopSwap(items);
      items := Swap(items, 0, n);
      ghost var last := items[n];
      Down(n);
      assert items[n] == items[n..][0];
      var item := items[n];
      PopRemove(items, view0, n);
      items := items[..n];
      view := view[1..];
      nodeId := item.nodeId;
    }

    method Empty() returns (b: bool)
      requires Valid()
      ensures b <==> view == []
    {
      b := |items| == 0;
      assert |multiset(items)| == |multiset(view)|;
    }
  }

  lemma UpDone(items: seq<Item>, n: int, j: int)
    requires 0 <= j < n && HeapExcept(items, n, j, -1)
    requires j == 0 || !Before(items[j], items[Parent(j)])
    ensures Heap(items, n)
  {
  }

  lemma RootBridged(items: seq<Item>, n: int)
    requires 0 <= n <= |items|
    ensures Bridged(items, n, 0)
  {
  }

  lemma DownLeaf(items: seq<Item>, n: int, i: int)
    requires 2 * i + 1 >= n && 0 <= i && HeapExcept(items, n, -1, i)
    ensures Heap(items, n)
  {
  }

  lemma BetterChild(items: seq<Item>, n: int, i: int, j: int)
    requires 0 <= i && 2 * i + 1 < n <= |items|
    requires j == if 2 * i + 2 < n && Before(items[2 * i + 2], items[2 * i + 1]) then 2 * i + 2 else 2 * i + 1
    ensures i < j < n && i == Parent(j)
    ensures forall k :: i < k < n && i == Parent(k) ==> !Before(items[k], items[j])
  {
  }

  lemma DownDone(items: seq<Item>, n: int, i: int, j: int)
    requires 0 <= i < j < n && HeapExcept(items, n, -1, i) && !Before(items[j], items[i])
    requires forall k :: i < k < n && i == Parent(k) ==> !Before(items[k], items[j])
    ensures Heap(items, n)
  {
  }

  lemma PushAppend(items: seq<Item>, item: Item)
    requires Heap(items, |items|)
    ensures HeapExcept(items + [item], |items| + 1, |items|, -1) && Bridged(items + [item], |items| + 1, |items|)
    ensures multiset(items + [item]) == multiset(items) + multiset{item}
  {
  }

  lemma NonEmpty(items: seq<Item>, counter: nat, view: seq<Item>)
    requires Refines(items, counter, view) && view != []
    ensures |items| > 0
  {
    assert view[0] in multiset(items);
  }

  lemma PopSwap(items: seq<Item>)
    requires Heap(items, |items|) && |items| > 0
    ensures HeapExcept(Swap(items, 0, |items| - 1), |items| - 1, -1, 0)
    ensures multiset(Swap(items, 0, |items| - 1)) == multiset(items)
    ensures Swap(items, 0, |items| - 1)[|items| - 1] == items[0]
  {
  }

  lemma PopRemove(items: seq<Item>, view: seq<Item>, n: int)
    requires 0 <= n == |items| - 1 && |view| > 0 && Heap(items, n)
    requires multiset(view) == multiset(items) && items[n] == view[0] && Sorted(view)
    ensures Heap(items[..n], n) && Sorted(view[1..])
    ensures multiset(items[..n]) == multiset(view[1..])
    ensures forall y :: y in view[1..] ==> y in view
  {
    assert items == items[..n] + [items[n]];
    assert view == [view[0]] + view[1..];
    assert multiset(items) == multiset(items[..n]) + multiset{items[n]};
    assert multiset(view) == multiset{view[0]} + multiset(view[1..]);
    assert multiset(items) - multiset{items[n]} == multiset(items[..n]);
    assert multiset(view) - multiset{view[0]} == multiset(view[1..]);
  }
}
