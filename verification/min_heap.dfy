/** The pending heap: Go's container/heap sift operations over a slice of items that also
    record their own position. `sequence` and `buf` never change once an item is made. */
module MinHeaps {
  import opened Ring

  class MinHeapItem<T> {
    const sequence: int
    const buf: T
    var index: int

    constructor (sequence: int, buf: T)
      ensures this.sequence == sequence && this.buf == buf && index == 0
    {
      this.sequence, this.buf, index := sequence, buf, 0;
    }
  }

  ghost function ItemSet<T>(h: seq<MinHeapItem<T>>): set<MinHeapItem<T>> {
    set x | x in h
  }

  function Parent(j: int): int {
    (j - 1) / 2
  }

  /** Item `j` does not precede its parent. */
  ghost predicate Fits<T>(h: seq<MinHeapItem<T>>, j: int)
    requires 0 < j < |h|
  {
    h[Parent(j)].sequence <= h[j].sequence
  }

  /** No parent among the first `n` items exceeds its child. */
  ghost predicate HeapOrder<T>(h: seq<MinHeapItem<T>>, n: int) {
    n <= |h| && forall j :: 0 < j < n ==> Fits(h, j)
  }

  ghost predicate Distinct<T>(h: seq<MinHeapItem<T>>) {
    forall i, j :: 0 <= i < j < |h| ==> h[i] != h[j]
  }

  /** The order holds except possibly between `hole` and its parent, around which it holds. */
  ghost predicate OrderAbove<T>(h: seq<MinHeapItem<T>>, hole: int) {
    && (forall j :: 0 < j < |h| && j != hole ==> Fits(h, j))
    && (0 < hole < |h| ==>
          forall j {:trigger Fits(h, j)} :: 0 < j < |h| && Parent(j) == hole ==> h[Parent(hole)].sequence <= h[j].sequence)
  }

  /** The order holds among the first `n` items except possibly between `hole` and its
      children, around which it holds. */
  ghost predicate OrderBelow<T>(h: seq<MinHeapItem<T>>, hole: int, n: int) {
    && n <= |h|
    && (forall j :: 0 < j < n && Parent(j) != hole ==> Fits(h, j))
    && (0 < hole < n ==>
          forall j {:trigger Fits(h, j)} :: 0 < j < n && Parent(j) == hole ==> h[Parent(hole)].sequence <= h[j].sequence)
  }

  ghost function Swapped<T>(h: seq<MinHeapItem<T>>, i: int, j: int): seq<MinHeapItem<T>>
    requires 0 <= i < |h| && 0 <= j < |h|
  {
    h[i := h[j]][j := h[i]]
  }

  lemma {:induction false} RootIsLeast<T>(h: seq<MinHeapItem<T>>, n: int, k: int)
    requires HeapOrder(h, n) && 0 <= k < n
    ensures h[0].sequence <= h[k].sequence
    decreases k
  {
    if k > 0 {
      assert Fits(h, k);
      RootIsLeast(h, n, Parent(k));
    }
  }

  lemma SiftedUp<T>(h: seq<MinHeapItem<T>>, j: int)
    requires 0 < j < |h| && OrderAbove(h, j) && !Fits(h, j)
    ensures OrderAbove(Swapped(h, Parent(j), j), Parent(j))
  {
    var i, h' := Parent(j), Swapped(h, Parent(j), j);
    forall k | 0 < k < |h| && k != i
      ensures Fits(h', k)
      ensures 0 < i && Parent(k) == i ==> h'[Parent(i)].sequence <= h'[k].sequence
    {
      assert k != j ==> Fits(h, k);
      assert 0 < i ==> Fits(h, i);
    }
  }

  lemma SiftedDown<T>(h: seq<MinHeapItem<T>>, i: int, j: int, n: int)
    requires OrderBelow(h, i, n) && 0 <= i < n && 0 < j < n && Parent(j) == i && !Fits(h, j)
    requires forall k :: 0 < k < n && Parent(k) == i ==> h[j].sequence <= h[k].sequence
    ensures OrderBelow(Swapped(h, i, j), j, n)
  {
  }

  lemma SettledUp<T>(h: seq<MinHeapItem<T>>, j: int)
    requires 0 <= j < |h| && OrderAbove(h, j) && (j > 0 ==> Fits(h, j))
    ensures HeapOrder(h, |h|)
  {
  }

  lemma SettledDown<T>(h: seq<MinHeapItem<T>>, i: int, n: int)
    requires OrderBelow(h, i, n) && 0 <= i
    requires forall k :: 0 < k < n && Parent(k) == i ==> h[i].sequence <= h[k].sequence
    ensures HeapOrder(h, n)
  {
  }

  class WrapHeap<T> {
    var heap: seq<MinHeapItem<T>>

    ghost function Items(): set<MinHeapItem<T>>
      reads this
    {
      ItemSet(heap)
    }

    /** The items are different objects and each knows its position. */
    ghost predicate Indexed()
      reads this, Items()
    {
      Distinct(heap) && forall i :: 0 <= i < |heap| ==> heap[i].index == i
    }

    ghost predicate Valid()
      reads this, Items()
    {
      Indexed() && HeapOrder(heap, |heap|)
    }

    constructor ()
      ensures Valid() && heap == []
    {
      heap := [];
    }

    predicate Less(i: int, j: int)
      requires 0 <= i < |heap| && 0 <= j < |heap|
      reads this
    {
      heap[i].sequence < heap[j].sequence
    }

    method Swap(i: int, j: int)
      requires 0 <= i < |heap| && 0 <= j < |heap| && Indexed()
      modifies this, heap[i], heap[j]
      ensures heap == Swapped(old(heap), i, j) && Indexed()
      ensures multiset(heap) == old(multiset(heap)) && Items() == old(Items())
    {
      ItemsSwapped(heap, i, j);
      ghost var before := heap;
      heap := heap[i := heap[j]][j := heap[i]];
      heap[i].index := i;
      heap[j].index := j;
      assert heap == Swapped(before, i, j);
    }

    method Up(last: int)
      requires Indexed() && 0 <= last < |heap| && OrderAbove(heap, last)
      modifies this, Items()
      ensures Valid() && multiset(heap) == old(multiset(heap)) && Items() == old(Items())
    {
      var j := last;
      while true
        invariant 0 <= j < |heap| && Indexed() && OrderAbove(heap, j)
        invariant multiset(heap) == old(multiset(heap))
        invariant Items() == old(Items())
        decreases j
      {
        var i := if j == 0 then 0 else (j - 1) / 2;
        if i == j || !Less(j, i) {
          break;
        }
        SiftedUp(heap, j);
        Swap(i, j);
        j := i;
      }
      SettledUp(heap, j);
    }

    method SmallerChild(i: int, n: int) returns (j: int)
      requires 0 <= i && 2 * i + 1 < n <= |heap|
      ensures 0 < j < n && Parent(j) == i
      ensures forall k :: 0 < k < n && Parent(k) == i ==> heap[j].sequence <= heap[k].sequence
    {
      var j1 := 2 * i + 1;
      j := j1;
      var j2 := j1 + 1;
      if j2 < n && Less(j2, j1) {
        j := j2;
      }
    }

    /** `down(h, 0, n)`: the root sinks within the first `n` items, the others do not move. */
    method Down(n: int)
      requires Indexed() && 0 <= n <= |heap| && OrderBelow(heap, 0, n)
      modifies this, Items()
      ensures Indexed() && HeapOrder(heap, n) && |heap| == old(|heap|)
      ensures forall k :: n <= k < |heap| ==> heap[k] == old(heap[k])
      ensures multiset(heap) == old(multiset(heap)) && Items() == old(Items())
    {
      var i := 0;
      while true
        invariant 0 <= i && (i < n || n == 0) && Indexed() && OrderBelow(heap, i, n)
        invariant multiset(heap) == old(multiset(heap)) && Items() == old(Items())
        invariant |heap| == old(|heap|) && forall k :: n <= k < |heap| ==> heap[k] == old(heap[k])
        decreases n - i
      {
        if 2 * i + 1 >= n {
          break;
        }
        var j := SmallerChild(i, n);
        if !Less(j, i) {
          break;
        }
        SiftedDown(heap, i, j, n);
        Swap(i, j);
        i := j;
      }
      SettledDown(heap, i, n);
    }

    /** MinHeap.Push: append, and record the position. */
    method Append(item: MinHeapItem<T>)
      requires Indexed() && item !in heap
      modifies this, item
      ensures heap == old(heap) + [item] && Indexed()
    {
      item.index := |heap|;
      heap := heap + [item];
    }

    /** MinHeap.Pop: take the last item off and mark it as removed. */
    method RemoveLast() returns (item: MinHeapItem<T>)
      requires Indexed() && heap != []
      modifies this, Items()
      ensures item == old(heap)[|old(heap)| - 1] && heap == old(heap)[..|old(heap)| - 1]
      ensures Indexed() && item.index == -1
    {
      item := heap[|heap| - 1];
      item.index := -1;
      heap := heap[..|heap| - 1];
    }

    method Push(item: MinHeapItem<T>)
      requires Valid() && item !in heap
      modifies this, item, Items()
      ensures Valid() && multiset(heap) == old(multiset(heap)) + multiset{item}
      ensures forall x :: x in heap <==> x in old(heap) || x == item
    {
      Append(item);
      Appended(old(heap), item);
      ghost var appended := heap;
      Up(|heap| - 1);
      forall x ensures x in heap <==> x in old(heap) || x == item {
        assert x in heap <==> x in Items();
        assert x in appended <==> x in ItemSet(appended);
      }
    }

    /** An item of least sequence number, taken out; None from an empty heap. */
    method Pick() returns (picked: Option<MinHeapItem<T>>)
      requires Valid()
      modifies this, Items()
      ensures Valid()
      ensures old(heap) == [] ==> picked == None && heap == []
      ensures old(heap) != [] ==>
        && picked.Some? && picked.value in old(heap) && picked.value.index == -1
        && (forall x :: x in old(heap) ==> picked.value.sequence <= x.sequence)
        && multiset(heap) == old(multiset(heap)) - multiset{picked.value}
        && (forall x :: x in heap <==> x in old(heap) && x != picked.value)
    {
      if heap == [] {
        return None;
      }
      ghost var before := heap;
      var item := PopRoot();
      Removed(before, heap, item);
      picked := Some(item);
    }

    /** Picks until the heap is empty, as drainProcessor does: the items come out sorted. */
    method PickAll() returns (picked: seq<MinHeapItem<T>>)
      requires Valid()
      modifies this, Items()
      ensures Valid() && heap == []
      ensures multiset(picked) == old(multiset(heap)) && Ascending(picked)
      ensures forall x :: x in picked ==> x.index == -1
    {
      picked := [];
      while heap != []
        invariant Valid() && Items() <= old(Items())
        invariant multiset(picked) + multiset(heap) == old(multiset(heap))
        invariant Ascending(picked) && Below(picked, heap)
        invariant forall x :: x in picked ==> x.index == -1
        decreases |heap|
      {
        ghost var before := heap;
        var item := PopRoot();
        Removed(before, heap, item);
        PickedNext(picked, before, heap, item);
        picked := picked + [item];
      }
    }

    /** container/heap's Pop. */
    method PopRoot() returns (item: MinHeapItem<T>)
      requires Valid() && heap != []
      modifies this, Items()
      ensures Valid() && item == old(heap)[0] && item.index == -1
      ensures forall x :: x in old(heap) ==> item.sequence <= x.sequence
      ensures multiset(heap) == old(multiset(heap)) - multiset{item}
    {
      var n := |heap| - 1;
      LeastFirst(heap);
      RootSwapped(heap);
      Swap(0, n);
      Down(n);
      assert heap[n] == old(heap)[0];
      WithoutLast(heap);
      item := RemoveLast();
    }
  }

  ghost predicate Ascending<T>(items: seq<MinHeapItem<T>>) {
    forall i, j :: 0 <= i < j < |items| ==> items[i].sequence <= items[j].sequence
  }

  ghost predicate Below<T>(picked: seq<MinHeapItem<T>>, h: seq<MinHeapItem<T>>) {
    forall x, y :: x in picked && y in h ==> x.sequence <= y.sequence && x != y
  }

  lemma PickedNext<T>(picked: seq<MinHeapItem<T>>, before: seq<MinHeapItem<T>>, after: seq<MinHeapItem<T>>,
                      item: MinHeapItem<T>)
    requires Ascending(picked) && Below(picked, before) && item in before
    requires forall x :: x in before ==> item.sequence <= x.sequence
    requires item !in after && ItemSet(after) <= ItemSet(before)
    ensures Ascending(picked + [item]) && Below(picked + [item], after)
  {
    forall y | y in after ensures y in before {
      assert y in ItemSet(after);
    }
    forall i | 0 <= i < |picked| ensures picked[i].sequence <= item.sequence {
      assert picked[i] in picked;
    }
  }

  lemma Removed<T>(before: seq<MinHeapItem<T>>, after: seq<MinHeapItem<T>>, item: MinHeapItem<T>)
    requires Distinct(before) && item in before && multiset(after) == multiset(before) - multiset{item}
    ensures |after| == |before| - 1 && item !in after && ItemSet(after) <= ItemSet(before)
    ensures forall x :: x in after <==> x in before && x != item
    ensures multiset(before) == multiset(after) + multiset{item}
  {
    DistinctOnce(before, item);
    assert |multiset(after)| == |multiset(before)| - 1;
    forall x ensures x in after <==> x in before && x != item {
      assert x in after <==> x in multiset(after);
      assert x in before <==> x in multiset(before);
    }
  }

  lemma {:induction false} DistinctOnce<T>(h: seq<MinHeapItem<T>>, item: MinHeapItem<T>)
    requires Distinct(h) && item in h
    ensures multiset(h)[item] == 1
  {
    var last := h[|h| - 1];
    assert h == h[..|h| - 1] + [last];
    if item in h[..|h| - 1] {
      DistinctOnce(h[..|h| - 1], item);
    } else {
      assert item !in multiset(h[..|h| - 1]);
    }
  }

  lemma Appended<T>(h: seq<MinHeapItem<T>>, item: MinHeapItem<T>)
    requires HeapOrder(h, |h|)
    ensures OrderAbove(h + [item], |h|)
  {
    forall j | 0 < j < |h| ensures Fits(h + [item], j) {
      assert Fits(h, j);
    }
    forall j | 0 < j < |h| + 1 ensures Parent(j) < |h| {}
  }

  lemma RootSwapped<T>(h: seq<MinHeapItem<T>>)
    requires h != [] && HeapOrder(h, |h|)
    ensures OrderBelow(Swapped(h, 0, |h| - 1), 0, |h| - 1)
    ensures Swapped(h, 0, |h| - 1)[|h| - 1] == h[0]
  {
    var n, h' := |h| - 1, Swapped(h, 0, |h| - 1);
    forall j | 0 < j < n && Parent(j) != 0 ensures Fits(h', j) {
      assert Fits(h, j);
    }
  }

  lemma WithoutLast<T>(h: seq<MinHeapItem<T>>)
    requires h != []
    ensures multiset(h[..|h| - 1]) == multiset(h) - multiset{h[|h| - 1]}
    ensures HeapOrder(h, |h| - 1) ==> HeapOrder(h[..|h| - 1], |h| - 1)
  {
    assert h == h[..|h| - 1] + [h[|h| - 1]];
    if HeapOrder(h, |h| - 1) {
      var h' := h[..|h| - 1];
      forall j | 0 < j < |h'| ensures Fits(h', j) {
        assert Fits(h, j);
      }
    }
  }

  lemma ItemsSwapped<T>(h: seq<MinHeapItem<T>>, i: int, j: int)
    requires 0 <= i < |h| && 0 <= j < |h|
    ensures ItemSet(Swapped(h, i, j)) == ItemSet(h)
    ensures multiset(Swapped(h, i, j)) == multiset(h)
  {
    forall x ensures x in Swapped(h, i, j) <==> x in multiset(Swapped(h, i, j)) {}
    forall x ensures x in h <==> x in multiset(h) {}
  }

  lemma LeastFirst<T>(h: seq<MinHeapItem<T>>)
    requires h != [] && HeapOrder(h, |h|)
    ensures forall x :: x in h ==> h[0].sequence <= x.sequence
  {
    forall k | 0 <= k < |h| ensures h[0].sequence <= h[k].sequence {
      RootIsLeast(h, |h|, k);
    }
  }
}
