/**
  The scheduler's priority queue: a binary heap of items with an index from pod names to items, kept
  in step while the heap algorithms of Go's `container/heap` move items around.
 */
module PriorityQueue {
  import opened Common

  /** A pod to schedule; `copy` tells apart different objects of the same name. */
  datatype Pod = Pod(name: string, copy: nat)

  /** `requestTime` is in nanoseconds. */
  datatype Item = Item(pod: Pod, requestTime: int)

  const NANOS_PER_MILLI: int := 1_000_000

  /** `Time.UnixMilli`: whole milliseconds, rounded down. */
  function Millis(t: int): int { t / NANOS_PER_MILLI }

  function Rank(e: Item): int { Millis(e.requestTime) }

  /** An item that comes first was asked for earlier, up to a millisecond. */
  lemma EarlierFirst(a: Item, b: Item)
    ensures a.requestTime <= b.requestTime ==> Rank(a) <= Rank(b)
    ensures Rank(a) <= Rank(b) ==> a.requestTime < b.requestTime + NANOS_PER_MILLI
  {
  }

  class QueueItem {
    const elem: Item
    var index: int

    constructor (elem: Item, index: int)
      ensures this.elem == elem && this.index == index
    {
      this.elem, this.index := elem, index;
    }
  }

  // ---------- Heap order ----------

  type Array = seq<QueueItem>

  function Parent(k: nat): nat
    requires k > 0
  {
    (k - 1) / 2
  }

  predicate Less(q: Array, i: nat, j: nat)
    requires i < |q| && j < |q|
  {
    Rank(q[i].elem) < Rank(q[j].elem)
  }

  /** The item at `k` is not before its parent. */
  predicate Edge(q: Array, k: nat)
    requires 0 < k < |q|
  {
    !Less(q, k, Parent(k))
  }

  /** Heap order among the first `n` items. */
  predicate HeapTo(q: Array, n: nat)
    requires n <= |q|
  {
    forall k :: 0 < k < n ==> Edge(q, k)
  }

  /** Items below `i` are not before the item above `i`: what is at `i` itself does not matter. */
  predicate Bridged(q: Array, n: nat, i: nat)
    requires n <= |q| && i < |q|
  {
    i > 0 ==> forall k :: 0 < k < n && Parent(k) == i ==> !Less(q, k, Parent(i))
  }

  /** Heap order except around `i`. */
  predicate HoleAt(q: Array, n: nat, i: nat)
    requires n <= |q| && i < |q|
  {
    Bridged(q, n, i) && forall k :: 0 < k < n && k != i && Parent(k) != i ==> Edge(q, k)
  }

  /** Heap order except below `i`. */
  predicate HoleBelow(q: Array, n: nat, i: nat)
    requires n <= |q| && i < |q|
  {
    Bridged(q, n, i) && forall k :: 0 < k < n && Parent(k) != i ==> Edge(q, k)
  }

  /** Heap order except above `i`. */
  predicate HoleAbove(q: Array, n: nat, i: nat)
    requires n <= |q| && i < |q|
  {
    Bridged(q, n, i) && forall k :: 0 < k < n && k != i ==> Edge(q, k)
  }

  function Swapped(q: Array, i: nat, j: nat): Array
    requires i < |q| && j < |q|
  {
    q[i := q[j]][j := q[i]]
  }

  /** The first of a heap is not after any other. */
  lemma {:induction false} RootIsFirst(q: Array, k: nat)
    requires k < |q| && HeapTo(q, |q|)
    ensures !Less(q, k, 0)
    decreases k
  {
    if k > 0 {
      assert Edge(q, k);
      RootIsFirst(q, Parent(k));
    }
  }

  /** One step down: the hole moves to the smaller child. */
  lemma StepDown(q: Array, n: nat, i: nat, j: nat)
    requires n <= |q| && i < j < n && Parent(j) == i && (HoleAt(q, n, i) || HoleBelow(q, n, i)) && Less(q, j, i)
    requires forall k :: 0 < k < n && Parent(k) == i ==> !Less(q, k, j)
    ensures HoleBelow(Swapped(q, i, j), n, j)
  {
    var q' := Swapped(q, i, j);
    forall k | 0 < k < n && Parent(k) != j
      ensures Edge(q', k)
    {
      if k == i || k == j || Parent(k) == i {
      } else {
        assert q'[k] == q[k] && q'[Parent(k)] == q[Parent(k)];
        assert Edge(q, k);
      }
    }
    forall k | 0 < k < n && Parent(k) == j
      ensures !Less(q', k, Parent(j))
    {
      assert Edge(q, k);
    }
  }

  /** No step down needed: only the way up can still be wrong. */
  lemma StopDown(q: Array, n: nat, i: nat)
    requires n <= |q| && i < n && forall k :: 0 < k < n && Parent(k) == i ==> Edge(q, k)
    ensures HoleAt(q, n, i) ==> HoleAbove(q, n, i)
    ensures HoleBelow(q, n, i) ==> HeapTo(q, n)
  {
  }

  /** One step up: the hole moves to the parent. */
  lemma StepUp(q: Array, n: nat, j: nat)
    requires n <= |q| && 0 < j < n && HoleAbove(q, n, j) && Less(q, j, Parent(j))
    ensures HoleAbove(Swapped(q, Parent(j), j), n, Parent(j))
  {
    var i := Parent(j);
    var q' := Swapped(q, i, j);
    forall k | 0 < k < n && k != i
      ensures Edge(q', k)
    {
      if k != j && Parent(k) != j && Parent(k) != i {
        assert q'[k] == q[k] && q'[Parent(k)] == q[Parent(k)];
      }
      if k != j { assert Edge(q, k); }
    }
    if i > 0 {
      assert Edge(q, i);
      forall k | 0 < k < n && Parent(k) == i
        ensures !Less(q', k, Parent(i))
      {
        if k != j { assert Edge(q, k); }
      }
    }
  }

  lemma StopUp(q: Array, n: nat, j: nat)
    requires n <= |q| && j < n && HoleAbove(q, n, j) && (j > 0 ==> Edge(q, j))
    ensures HeapTo(q, n)
  {
  }

  // ---------- The indexed queue ----------

  type Items = map<string, Item>

  /** The name index and the array describe the same items. */
  ghost predicate Linked(queue: Array, indexes: map<string, QueueItem>, items: Items) {
    && indexes.Keys == items.Keys
    && (forall n :: n in indexes ==> indexes[n].elem == items[n] && items[n].pod.name == n && indexes[n] in queue)
    && (forall k :: 0 <= k < |queue| ==>
          queue[k].elem.pod.name in indexes && indexes[queue[k].elem.pod.name] == queue[k])
  }

  lemma LinkedSwapped(queue: Array, indexes: map<string, QueueItem>, items: Items, i: nat, j: nat)
    requires Linked(queue, indexes, items) && i < |queue| && j < |queue|
    ensures Linked(Swapped(queue, i, j), indexes, items)
  {
    var q' := Swapped(queue, i, j);
    forall n | n in indexes
      ensures indexes[n] in q'
    {
      var k :| 0 <= k < |queue| && queue[k] == indexes[n];
      assert q'[if k == i then j else if k == j then i else k] == indexes[n];
    }
  }

  lemma LinkedPushed(queue: Array, indexes: map<string, QueueItem>, items: Items, item: QueueItem)
    requires Linked(queue, indexes, items) && item.elem.pod.name !in items
    ensures Linked(queue + [item], indexes[item.elem.pod.name := item], items[item.elem.pod.name := item.elem])
  {
    var q' := queue + [item];
    assert q'[|queue|] == item;
    forall n | n in indexes
      ensures indexes[n] in q'
    {
      var k :| 0 <= k < |queue| && queue[k] == indexes[n];
      assert q'[k] == indexes[n];
    }
  }

  /** With every item at its own place, dropping the last one drops exactly its name. */
  lemma LinkedPopped(queue: Array, indexes: map<string, QueueItem>, items: Items)
    requires Linked(queue, indexes, items) && queue != [] && Distinct(queue)
    ensures queue[|queue| - 1].elem.pod.name in items
    ensures items[queue[|queue| - 1].elem.pod.name] == queue[|queue| - 1].elem
    ensures Linked(queue[..|queue| - 1], indexes - {queue[|queue| - 1].elem.pod.name},
                   items - {queue[|queue| - 1].elem.pod.name})
  {
    var q', last := queue[..|queue| - 1], queue[|queue| - 1];
    forall n | n in indexes && n != last.elem.pod.name
      ensures indexes[n] in q'
    {
      var k :| 0 <= k < |queue| && queue[k] == indexes[n];
      assert q'[k] == indexes[n];
    }
    forall k | 0 <= k < |q'|
      ensures q'[k].elem.pod.name != last.elem.pod.name
    {
      assert indexes[queue[k].elem.pod.name] == queue[k];
    }
  }

  predicate Distinct(queue: Array) {
    forall i, j :: 0 <= i < j < |queue| ==> queue[i] != queue[j]
  }

  class PriorityQueue {
    var queue: Array
    var indexes: map<string, QueueItem>
    ghost var repr: set<QueueItem>
    /** What the queue holds, by pod name. */
    ghost var items: Items

    constructor ()
      ensures Valid() && items == map[] && repr == {}
    {
      queue, indexes := [], map[];
      repr, items := {}, map[];
    }

    /** Every item knows its place. */
    ghost predicate Placed()
      reads this, repr
    {
      forall k :: 0 <= k < |queue| ==> queue[k] in repr && queue[k].index == k
    }

    ghost predicate Sound()
      reads this, repr
    {
      Placed() && Linked(queue, indexes, items)
    }

    ghost predicate Valid()
      reads this, repr
    {
      Sound() && HeapTo(queue, |queue|)
    }

    lemma AllDistinct()
      requires Placed()
      ensures Distinct(queue)
    {
    }

    method Swap(i: nat, j: nat)
      requires Sound() && i < |queue| && j < |queue|
      modifies this`queue, repr
      ensures Sound() && queue == Swapped(old(queue), i, j)
    {
      hide Linked;
      AllDistinct();
      LinkedSwapped(queue, indexes, items, i, j);
      queue := queue[i := queue[j]][j := queue[i]];
      queue[i].index := i;
      queue[j].index := j;
    }

    /** `up` of `container/heap`, with heap order asked of the first `n` items only. */
    method Up(j0: nat, ghost n: nat)
      requires Sound() && j0 < n <= |queue| && HoleAbove(queue, n, j0)
      modifies this`queue, repr
      ensures Sound() && |queue| == |old(queue)| && queue[n..] == old(queue)[n..] && HeapTo(queue, n)
    {
      hide Linked, Bridged, HoleAbove, Edge, HeapTo;
      var j: nat := j0;
      while true
        invariant Sound() && |queue| == |old(queue)| && j < n && HoleAbove(queue, n, j)
        invariant queue[n..] == old(queue)[n..]
        decreases j
      {
        if j == 0 || !Less(queue, j, (j - 1) / 2) {
          if j > 0 { EdgeIs(queue, j); }
          StopUp(queue, n, j);
          break;
        }
        StepUp(queue, n, j);
        Swap((j - 1) / 2, j);
        j := (j - 1) / 2;
      }
    }

    /** `down` of `container/heap`, on the first `n` items; says whether the item at `i0` moved. */
    method Down(i0: nat, n: nat) returns (moved: bool)
      requires Sound() && i0 < n <= |queue| && HoleAt(queue, n, i0)
      modifies this`queue, repr
      ensures Sound() && |queue| == |old(queue)| && queue[n..] == old(queue)[n..]
      ensures if moved then HeapTo(queue, n) else HoleAbove(queue, n, i0)
    {
      hide Linked, Bridged, HoleAbove, HoleAt, HoleBelow, HeapTo, Edge;
      var i := i0;
      while true
        invariant Sound() && |queue| == |old(queue)| && i0 <= i < n && queue[n..] == old(queue)[n..]
        invariant if i == i0 then HoleAt(queue, n, i) else HoleBelow(queue, n, i)
        decreases n - i
      {
        var j1 := 2 * i + 1;
        if j1 >= n {
          NoChild(queue, n, i);
          break;
        }
        var j := j1;
        if j1 + 1 < n && Less(queue, j1 + 1, j1) {
          j := j1 + 1;
        }
        SmallerChild(queue, n, i, j);
        if !Less(queue, j, i) {
          break;
        }
        StepDown(queue, n, i, j);
        Swap(i, j);
        i := j;
      }
      StopDown(queue, n, i);
      moved := i > i0;
    }

    /** `Push` of `container/heap` on this queue's own `Push`. */
    method HeapPush(elem: Item)
      requires Valid() && elem.pod.name !in items
      modifies this, repr
      ensures Valid() && fresh(repr - old(repr))
      ensures items == old(items)[elem.pod.name := elem]
    {
      hide Linked, Bridged, HeapTo, HoleAbove, Edge, Less;
      var item := new QueueItem(elem, |queue|);
      LinkedPushed(queue, indexes, items, item);
      PushedAtEnd(queue, item);
      repr := repr + {item};
      items := items[elem.pod.name := elem];
      queue := queue + [item];
      indexes := indexes[elem.pod.name := item];
      Up(|queue| - 1, |queue|);
    }

    /** The queue's own `Pop`: takes the last item. */
    method Pop() returns (elem: Option<Item>)
      requires Sound() && (queue != [] ==> HeapTo(queue, |queue| - 1))
      modifies this, repr
      ensures Valid() && repr == old(repr)
      ensures old(queue) == [] ==> elem == None && items == old(items)
      ensures old(queue) != [] ==>
                && elem == Some(old(queue)[|old(queue)| - 1].elem)
                && elem.value.pod.name in old(items) && old(items)[elem.value.pod.name] == elem.value
                && items == old(items) - {elem.value.pod.name}
    {
      hide Linked, HeapTo;
      var n := |queue|;
      if n == 0 {
        EmptyIsHeap(queue);
        return None;
      }
      AllDistinct();
      LinkedPopped(queue, indexes, items);
      HeapOfPrefix(queue, n - 1);
      var item := queue[n - 1];
      item.index := -1;
      queue := queue[..n - 1];
      indexes := indexes - {item.elem.pod.name};
      items := items - {item.elem.pod.name};
      return Some(item.elem);
    }

    /** `Pop` of `container/heap`: takes an item of least rank. */
    method HeapPop() returns (elem: Item)
      requires Valid() && queue != []
      modifies this, repr
      ensures Valid() && repr == old(repr)
      ensures elem.pod.name in old(items) && old(items)[elem.pod.name] == elem
      ensures forall n :: n in old(items) ==> Rank(elem) <= Rank(old(items)[n])
      ensures items == old(items) - {elem.pod.name}
    {
      hide Linked, HeapTo, Bridged, HoleAt, HoleAbove;
      var n := |queue| - 1;
      RootIsLeast(queue, indexes, items);
      SwapOut(queue, 0);
      Swap(0, n);
      if n > 0 {
        var moved := Down(0, n);
        if !moved { StopUp(queue, n, 0); }
      } else {
        EmptyIsHeap(queue);
      }
      assert queue[n] == queue[n..][0];
      var last := Pop();
      return last.value;
    }

    /** `Remove` of `container/heap`: takes the item at `i`, wherever it is. */
    method HeapRemove(i: nat) returns (elem: Item)
      requires Valid() && i < |queue|
      modifies this, repr
      ensures Valid() && repr == old(repr)
      ensures elem == old(queue)[i].elem && items == old(items) - {elem.pod.name}
    {
      hide Linked, HeapTo, Bridged, HoleAt, HoleAbove;
      var n := |queue| - 1;
      if n != i {
        SwapOut(queue, i);
        Swap(i, n);
        var moved := Down(i, n);
        if !moved {
          Up(i, n);
        }
      } else {
        HeapOfLess(queue, n);
      }
      assert queue[n] == queue[n..][0];
      var last := Pop();
      return last.value;
    }

    /** The place and the item of a name, if the queue holds it. */
    method Get(name: string) returns (index: int, elem: Option<Item>)
      requires Valid()
      ensures elem == (if name in items then Some(items[name]) else None)
      ensures if name in items then 0 <= index < |queue| && queue[index].elem == items[name] else index == -1
    {
      if name in indexes {
        return indexes[name].index, Some(indexes[name].elem);
      } else {
        return -1, None;
      }
    }

    /** The item in the last place: none exactly when the queue is empty. */
    method Peak() returns (elem: Option<Item>)
      requires Valid()
      ensures elem == None <==> items == map[]
      ensures elem == None <==> queue == []
      ensures elem.Some? ==> elem.value == queue[|queue| - 1].elem && elem.value in items.Values
    {
      if |queue| > 0 {
        var k := |queue| - 1;
        assert items[queue[k].elem.pod.name] == queue[k].elem;
        return Some(queue[k].elem);
      } else {
        return None;
      }
    }
  }

  // ---------- Steps of the heap operations ----------

  lemma EdgeIs(q: Array, k: nat)
    requires 0 < k < |q|
    ensures Edge(q, k) <==> !Less(q, k, Parent(k))
  {
  }

  lemma NoChild(q: Array, n: nat, i: nat)
    requires n <= |q| && n <= 2 * i + 1
    ensures forall k :: 0 < k < n && Parent(k) == i ==> Edge(q, k)
  {
  }

  /** The child chosen on the way down is not after its sibling. */
  lemma SmallerChild(q: Array, n: nat, i: nat, j: nat)
    requires n <= |q| && 2 * i + 1 <= j <= 2 * i + 2 && j < n
    requires j == 2 * i + 1 && j + 1 < n ==> !Less(q, j + 1, j)
    requires j == 2 * i + 2 ==> Less(q, j, j - 1)
    ensures Parent(j) == i
    ensures forall k :: 0 < k < n && Parent(k) == i ==> !Less(q, k, j)
    ensures !Less(q, j, i) ==> forall k :: 0 < k < n && Parent(k) == i ==> Edge(q, k)
  {
    forall k | 0 < k < n && Parent(k) == i
      ensures !Less(q, k, j)
    {
      assert k == 2 * i + 1 || k == 2 * i + 2;
    }
  }

  lemma PushedAtEnd(q: Array, item: QueueItem)
    requires HeapTo(q, |q|)
    ensures HoleAbove(q + [item], |q| + 1, |q|)
  {
    var q' := q + [item];
    forall k | 0 < k < |q|
      ensures Edge(q', k)
    {
      assert Edge(q, k);
      assert q'[k] == q[k] && q'[Parent(k)] == q[Parent(k)];
    }
    assert forall k :: 0 < k <= |q| ==> Parent(k) < |q|;
  }

  lemma HeapOfPrefix(q: Array, n: nat)
    requires n <= |q| && HeapTo(q, n)
    ensures HeapTo(q[..n], n)
  {
    forall k | 0 < k < n
      ensures Edge(q[..n], k)
    {
      assert Edge(q, k);
    }
  }

  lemma HeapOfLess(q: Array, n: nat)
    requires n <= |q| && HeapTo(q, |q|)
    ensures HeapTo(q, n)
  {
  }

  lemma EmptyIsHeap(q: Array)
    ensures HeapTo(q, 0)
  {
  }

  /** Exchanging an item with the last one leaves a hole in its place. */
  lemma SwapOut(q: Array, i: nat)
    requires i < |q| && HeapTo(q, |q|)
    ensures HoleAt(Swapped(q, i, |q| - 1), |q| - 1, i)
  {
    var n := |q| - 1;
    var q' := Swapped(q, i, n);
    forall k | 0 < k < n && k != i && Parent(k) != i
      ensures Edge(q', k)
    {
      assert Edge(q, k);
      assert q'[k] == q[k] && q'[Parent(k)] == q[Parent(k)];
    }
    if i > 0 {
      assert Edge(q, i);
      forall k | 0 < k < n && Parent(k) == i
        ensures !Less(q', k, Parent(i))
      {
        assert Edge(q, k);
        assert q'[k] == q[k] && q'[Parent(i)] == q[Parent(i)];
      }
    }
  }

  lemma RootIsLeast(queue: Array, indexes: map<string, QueueItem>, items: Items)
    requires queue != [] && HeapTo(queue, |queue|) && Linked(queue, indexes, items)
    ensures forall n :: n in items ==> Rank(queue[0].elem) <= Rank(items[n])
  {
    forall n | n in items
      ensures Rank(queue[0].elem) <= Rank(items[n])
    {
      assert indexes[n] in queue;
      var k :| 0 <= k < |queue| && queue[k] == indexes[n];
      RootIsFirst(queue, k);
    }
  }
}
