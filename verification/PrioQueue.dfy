/**
 `rollbear::prio_queue`: keys in one skipping vector, payloads in a second one moved in lockstep.
 Each method is proved to act on the paired items as the corresponding step of the B-heap.
 */
module PrioQueues {
  import opened HeapAddressing
  import opened BHeap
  import opened SkipVectors

  /** Keys and payloads paired by index. */
  ghost function Zip<K, V>(keys: seq<K>, vals: seq<V>): (z: seq<Item<K, V>>)
    requires |keys| == |vals|
    ensures |z| == |keys| && forall i :: 0 <= i < |z| ==> z[i] == Item(keys[i], vals[i])
  {
    seq(|keys|, i requires 0 <= i < |keys| => Item(keys[i], vals[i]))
  }

  function UsableBelow(t: Tree, n: nat): nat {
    if n == 0 then 0 else UsableBelow(t, n - 1) + if t.usable(n - 1) then 1 else 0
  }

  lemma {:induction false} ItemsCardinality<K, V>(t: Tree, h: seq<Item<K, V>>, n: nat)
    requires n <= |h|
    ensures |ItemsBelow(t, h, n)| == UsableBelow(t, n)
  {
    if n > 0 {
      ItemsCardinality(t, h, n - 1);
    }
  }

  lemma {:induction false} UsableIsSize(k: nat, t: Tree, n: nat)
    requires k >= 1 && UsableIn(t, k)
    ensures UsableBelow(t, n) == SizeOf(k, n)
  {
    if n == 0 {
      SizeInBlock(k, 0, 0);
    } else {
      UsableIsSize(k, t, n - 1);
      SizeStep(k, n - 1);
    }
  }

  /** The tree uses exactly the indices that a skipping vector stores at. */
  ghost predicate UsableIn(t: Tree, k: nat) {
    forall i: nat :: t.usable(i) <==> Usable(k, i)
  }

  lemma BlocksUsable(k: nat)
    requires k >= 1
    ensures UsableIn(Blocks(k), k)
  {
  }

  lemma {:induction false} ItemsFrame<K, V>(t: Tree, h: seq<Item<K, V>>, g: seq<Item<K, V>>, n: nat)
    requires n <= |h| && n <= |g| && forall i :: 0 <= i < n && t.usable(i) ==> h[i] == g[i]
    ensures ItemsBelow(t, h, n) == ItemsBelow(t, g, n)
  {
    if n > 0 {
      ItemsFrame(t, h, g, n - 1);
    }
  }

  /** Skipped slots between `m` and `n` hold no items. */
  lemma {:induction false} ItemsTrim<K, V>(t: Tree, h: seq<Item<K, V>>, m: nat, n: nat)
    requires m <= n <= |h| && forall i: nat :: m <= i < n ==> !t.usable(i)
    ensures ItemsBelow(t, h, n) == ItemsBelow(t, h, m)
  {
    if m < n {
      ItemsTrim(t, h, m, n - 1);
    }
  }

  lemma HeapFrame<K, V>(t: Tree, less: (K, K) -> bool, h: seq<Item<K, V>>, g: seq<Item<K, V>>, m: nat, n: nat)
    requires IsTree(t) && m <= |h| && n <= |g| && HeapBelow(t, less, h, m)
    requires forall i: nat :: i < n && t.usable(i) ==> i < m && h[i] == g[i]
    ensures HeapBelow(t, less, g, n)
  {
    forall i: nat | 1 < i < n && t.usable(i) && t.parent(i) < n
      ensures Leq(less, g[t.parent(i)].key, g[i].key)
    {
      assert t.usable(t.parent(i)) && t.usable(i);
      assert i < m && t.parent(i) < m;
    }
  }

  class PrioQueue<K(!new, 0), V(!new, 0)> {
    const k: nat
    const less: (K, K) -> bool
    /** The addressing for blocks of `2^k`: parents, children and usable indices. */
    const tree: Tree
    const keys: SkipVector<K>
    const vals: SkipVector<V>

    ghost predicate Shape()
      reads keys, vals
    {
      && keys.Valid() && vals.Valid() && k >= 1 && keys.k == k && vals.k == k
      && keys.end == vals.end
      && keys as object != vals as object && keys.data as object != vals.data as object
      && IsTree(tree) && UsableIn(tree, k)
    }

    ghost function View(): seq<Item<K, V>>
      requires Shape()
      reads keys, keys.data, vals, vals.data
    {
      Zip(keys.data[..keys.end], vals.data[..vals.end])
    }

    ghost predicate Valid()
      reads keys, keys.data, vals, vals.data
    {
      Shape() && StrictWeakOrder(less) && HeapBelow(tree, less, View(), keys.end)
    }

    /** The queued (key, payload) pairs. */
    ghost function Contents(): multiset<Item<K, V>>
      requires Shape()
      reads keys, keys.data, vals, vals.data
    {
      ItemsBelow(tree, View(), keys.end)
    }

    constructor (k: nat, less: (K, K) -> bool)
      requires k >= 1 && StrictWeakOrder(less)
      ensures Valid() && Contents() == multiset{}
      ensures this.k == k && this.less == less && tree == Blocks(k)
      ensures fresh(keys) && fresh(keys.data) && fresh(vals) && fresh(vals.data)
    {
      this.k := k;
      this.less := less;
      tree := Blocks(k);
      BlocksIsTree(k);
      BlocksUsable(k);
      var ks := new SkipVector<K>(k);
      var vs := new SkipVector<V>(k);
      keys := ks;
      vals := vs;
    }

    /** Nothing but the stored items changes while a hole moves. */
    twostate predicate SameLayout()
      reads keys, vals
    {
      keys.data == old(keys.data) && vals.data == old(vals.data) && keys.end == old(keys.end)
    }

    method Store(i: nat, key: K, val: V)
      requires Shape() && i < keys.end
      modifies keys.data, vals.data
      ensures Shape() && SameLayout()
      ensures View() == old(View())[i := Item(key, val)]
    {
      keys.data[i] := key;
      vals.data[i] := val;
    }

    /** Move an item, key and payload together, over the one at `to`. */
    method Move(from: nat, to: nat)
      requires Shape() && from < keys.end && to < keys.end
      modifies keys.data, vals.data
      ensures Shape() && SameLayout()
      ensures View() == old(View())[to := old(View())[from]]
    {
      keys.data[to] := keys.data[from];
      vals.data[to] := vals.data[from];
    }

    /** The loop of `push_key`, and the second loop of `pop`: sift `key` and `val` up from the hole. */
    method SiftUpFrom(start: nat, key: K, val: V)
      requires Shape() && start < keys.end && tree.usable(start)
      modifies keys.data, vals.data
      ensures Shape() && SameLayout()
      ensures View() == SiftUp(tree, less, old(View()), start, Item(key, val))
    {
      ghost var x, h := Item(key, val), View();
      var hole: nat := start;
      while hole != 1
        invariant Shape() && SameLayout()
        invariant hole < keys.end && tree.usable(hole)
        invariant SiftUp(tree, less, View(), hole, x) == SiftUp(tree, less, h, start, x)
        decreases hole
      {
        var parent := tree.parent(hole);
        if !less(key, keys.data[parent]) {
          break;
        }
        Move(parent, hole);
        hole := parent;
      }
      Store(hole, key, val);
    }

    /** Append a pair to both vectors; the other items keep their indices. */
    method Append(key: K, val: V) returns (idx: nat)
      requires Shape()
      modifies keys, keys.data, vals, vals.data
      ensures Shape() && (fresh(keys.data) || keys.data == old(keys.data)) && (fresh(vals.data) || vals.data == old(vals.data))
      ensures idx == PushIndex(k, old(keys.end)) && keys.end == idx + 1 && View()[idx] == Item(key, val)
      ensures forall i :: 0 <= i < old(keys.end) ==> View()[i] == old(View()[i])
    {
      var at := vals.PushBack(val);
      idx := keys.PushBack(key);
    }

    /** The same said of the order and of the items. */
    method AppendPair(key: K, val: V) returns (idx: nat)
      requires Valid()
      modifies keys, keys.data, vals, vals.data
      ensures Shape() && (fresh(keys.data) || keys.data == old(keys.data)) && (fresh(vals.data) || vals.data == old(vals.data))
      ensures tree.usable(idx) && keys.end == idx + 1 && View()[idx] == Item(key, val)
      ensures HeapBelow(tree, less, View(), idx)
      ensures Contents() == old(Contents()) + multiset{Item(key, val)}
    {
      ghost var h := View();
      idx := Append(key, val);
      ghost var g := View();
      Appended(tree, k, less, h, g);
      assert g[idx] == Item(key, val) && |g| == idx + 1;
    }

    /** Order and items of a vector after an append, by its contents before and after. */
    static lemma Appended(t: Tree, k: nat, less: (K, K) -> bool, h: seq<Item<K, V>>, g: seq<Item<K, V>>)
      requires k >= 1 && IsTree(t) && UsableIn(t, k) && ValidEnd(k, |h|) && |g| == PushIndex(k, |h|) + 1
      requires HeapBelow(t, less, h, |h|) && forall i :: 0 <= i < |h| ==> g[i] == h[i]
      ensures t.usable(|g| - 1) && HeapBelow(t, less, g, |g| - 1)
      ensures ItemsBelow(t, g, |g|) == ItemsBelow(t, h, |h|) + multiset{g[|g| - 1]}
    {
      PushSlot(t, k, |h|);
      AppendedOrder(t, less, h, g, |h|);
      AppendedItems(t, h, g, |h|);
    }

    static lemma PushSlot(t: Tree, k: nat, end: nat)
      requires k >= 1 && UsableIn(t, k) && ValidEnd(k, end)
      ensures end <= PushIndex(k, end) && t.usable(PushIndex(k, end))
      ensures forall i: nat :: end <= i < PushIndex(k, end) ==> !t.usable(i)
    {
      PushIndexUsable(k, end);
    }

    /** The loop of `push_key` on a pair that is already at the end. */
    method SiftEnd()
      requires Shape() && keys.end > 0 && tree.usable(keys.end - 1)
      modifies keys.data, vals.data
      ensures Shape() && SameLayout()
      ensures View() == BHeap.Push(tree, less, old(View()))
    {
      var last := keys.end - 1;
      SiftUpFrom(last, keys.data[last], vals.data[last]);
    }

    /** `push_key` once the pair is at the end: sift it up. */
    method SiftLast()
      requires Shape() && StrictWeakOrder(less) && keys.end > 0 && tree.usable(keys.end - 1)
      requires HeapBelow(tree, less, View(), keys.end - 1)
      modifies keys.data, vals.data
      ensures Valid() && SameLayout() && Contents() == old(Contents())
    {
      PushKeepsHeap(tree, less, View());
      SiftEnd();
    }

    /** Append a pair and sift it up. */
    method Push(key: K, val: V)
      requires Valid()
      modifies keys, keys.data, vals, vals.data
      ensures Valid() && (fresh(keys.data) || keys.data == old(keys.data)) && (fresh(vals.data) || vals.data == old(vals.data))
      ensures Contents() == old(Contents()) + multiset{Item(key, val)}
    {
      var hole := AppendPair(key, val);
      SiftLast();
    }

    static lemma AppendedOrder(t: Tree, less: (K, K) -> bool, h: seq<Item<K, V>>, g: seq<Item<K, V>>, e: nat)
      requires IsTree(t) && e <= |h| && e < |g| && HeapBelow(t, less, h, e)
      requires forall i :: 0 <= i < e ==> g[i] == h[i]
      requires forall i: nat :: e <= i < |g| - 1 ==> !t.usable(i)
      ensures HeapBelow(t, less, g, |g| - 1)
    {
      HeapFrame(t, less, h, g, e, |g| - 1);
    }

    static lemma AppendedItems(t: Tree, h: seq<Item<K, V>>, g: seq<Item<K, V>>, e: nat)
      requires e <= |h| && e < |g| && t.usable(|g| - 1)
      requires forall i :: 0 <= i < e ==> g[i] == h[i]
      requires forall i: nat :: e <= i < |g| - 1 ==> !t.usable(i)
      ensures ItemsBelow(t, g, |g|) == ItemsBelow(t, h, e) + multiset{g[|g| - 1]}
    {
      assert ItemsBelow(t, g, |g| - 1) == ItemsBelow(t, h, e) by {
        ItemsTrim(t, g, e, |g| - 1);
        ItemsFrame(t, h, g, e);
      }
      LastItem(t, g);
    }

    static lemma LastItem(t: Tree, g: seq<Item<K, V>>)
      requires |g| > 0 && t.usable(|g| - 1)
      ensures ItemsBelow(t, g, |g|) == ItemsBelow(t, g, |g| - 1) + multiset{g[|g| - 1]}
    {
    }

    /** The first loop of `pop`: move the hole from the root to the bottom. */
    method WalkDown() returns (idx: nat)
      requires Shape() && keys.end > 1
      modifies keys.data, vals.data
      ensures Shape() && SameLayout()
      ensures (View(), idx) == PopWalk(tree, less, old(View()), 1)
      ensures idx < keys.end && tree.usable(idx)
    {
      ghost var h := View();
      idx := 1;
      var last := keys.end - 1;
      while true
        invariant Shape() && SameLayout()
        invariant idx < keys.end && tree.usable(idx)
        invariant PopWalk(tree, less, View(), idx) == PopWalk(tree, less, h, 1)
        decreases keys.end - idx
      {
        var l := tree.left(idx);
        if l > last {
          break;
        }
        var r := tree.right(idx);
        var next := if r < last && !less(keys.data[l], keys.data[r]) then r else l;
        assert next == PopChild(tree, less, View(), idx);
        Move(next, idx);
        idx := next;
      }
    }

    /** The first loop again, by what is left to do of the pop. */
    method WalkToBottom() returns (idx: nat)
      requires Shape() && keys.end > 1
      modifies keys.data, vals.data
      ensures Shape() && SameLayout() && idx < keys.end && tree.usable(idx)
      ensures BHeap.Pop(tree, less, old(View())) == Refilled(tree, less, View(), idx)[..keys.end - 1]
    {
      idx := WalkDown();
    }

    /** The second loop of `pop`, unless the hole is the last slot. */
    method SiftLastFrom(idx: nat)
      requires Shape() && idx < keys.end && tree.usable(idx)
      modifies keys.data, vals.data
      ensures Shape() && SameLayout()
      ensures View() == Refilled(tree, less, old(View()), idx)
    {
      var last := keys.end - 1;
      if idx != last {
        var key, val := keys.data[last], vals.data[last];
        SiftUpFrom(idx, key, val);
      }
    }

    /** Both loops of `pop`: what lies below the last slot is then the popped heap. */
    method TakeTop()
      requires Shape() && keys.end > 1
      modifies keys.data, vals.data
      ensures Shape() && SameLayout()
      ensures View()[..keys.end - 1] == BHeap.Pop(tree, less, old(View()))
    {
      var idx := WalkToBottom();
      SiftLastFrom(idx);
    }

    /** Drop the last slot of both vectors, and a skipped one before it. */
    method DropLast()
      requires Shape() && StrictWeakOrder(less) && keys.end > 0
      requires HeapBelow(tree, less, View()[..keys.end - 1], keys.end - 1)
      modifies keys`end, vals`end
      ensures Valid() && keys.data == old(keys.data) && vals.data == old(vals.data)
      ensures Contents() == old(ItemsBelow(tree, View()[..keys.end - 1], keys.end - 1))
    {
      ghost var last := keys.end - 1;
      ghost var g := View()[..last];
      PopEndFacts(k, keys.end);
      keys.PopBack();
      vals.PopBack();
      assert View() == g[..keys.end];
      ItemsTrim(tree, g, keys.end, last);
      ItemsFrame(tree, g, View(), keys.end);
      HeapFrame(tree, less, g, View(), last, keys.end);
    }

    /** Remove the top pair. */
    method Pop()
      requires Valid() && keys.end > 0
      modifies keys`end, keys.data, vals`end, vals.data
      ensures Valid() && keys.data == old(keys.data) && vals.data == old(vals.data)
      ensures old(keys.end) > 1
      ensures Contents() + multiset{old(View()[1])} == old(Contents())
    {
      ghost var h := View();
      PopEndFacts(k, keys.end);
      assert tree.usable(keys.end - 1);
      PopKeepsHeap(tree, less, h);
      PopRemovesTop(tree, less, h);
      TakeTop();
      DropLast();
    }

    /** Give the top pair a new key, keeping its payload. */
    method RescheduleTop(key: K)
      requires Valid() && keys.end > 1
      modifies keys.data, vals.data
      ensures Valid() && SameLayout()
      ensures Contents() + multiset{old(View()[1])} == old(Contents()) + multiset{Item(key, old(View()[1]).val)}
    {
      ghost var h := View();
      var val := vals.data[1];
      ghost var x := Item(key, val);
      RescheduleKeepsHeap(tree, less, h, x);
      var idx := 1;
      var last := keys.end - 1;
      while true
        invariant Shape() && SameLayout()
        invariant idx < keys.end && tree.usable(idx)
        invariant SiftDown(tree, less, View(), idx, x) == SiftDown(tree, less, h, 1, x)
        decreases keys.end - idx
      {
        var l := tree.left(idx);
        if l > last {
          break;
        }
        var r := tree.right(idx);
        var next := if r <= last && !less(keys.data[l], keys.data[r]) then r else l;
        assert next == LeastChild(tree, less, View(), idx);
        if less(key, keys.data[next]) {
          break;
        }
        Move(next, idx);
        idx := next;
      }
      Store(idx, key, val);
    }

    method Empty() returns (empty: bool)
      requires Valid()
      ensures empty <==> Contents() == multiset{}
    {
      empty := keys.end == 0;
      if keys.end > 0 {
        PopEndFacts(k, keys.end);
        ItemAtIndex(tree, View(), keys.end, keys.end - 1);
      }
    }

    /** `size()` is the number of queued pairs. */
    method Size() returns (n: int)
      requires Valid()
      ensures n == |Contents()|
    {
      n := keys.end - (keys.end + BlockSize(k) - 1) / BlockSize(k);
      ItemsCardinality(tree, View(), keys.end);
      UsableIsSize(k, tree, keys.end);
    }

    /** The top is a queued pair whose key comes after no queued key. */
    method Top() returns (key: K, val: V)
      requires Valid() && keys.end > 0
      ensures keys.end > 1 && Item(key, val) == View()[1] && Item(key, val) in Contents()
      ensures forall x :: x in Contents() ==> Leq(less, key, x.key)
    {
      PopEndFacts(k, keys.end);
      assert tree.usable(keys.end - 1);
      key, val := keys.data[1], vals.data[1];
      forall x | x in Contents() ensures Leq(less, key, x.key) {
        var i := IndexOfItem(tree, View(), keys.end, x);
        RootIsLeast(tree, less, View(), keys.end, i);
      }
      ItemAtIndex(tree, View(), keys.end, 1);
    }
  }

  lemma {:induction false} IndexOfItem<K, V>(t: Tree, h: seq<Item<K, V>>, n: nat, x: Item<K, V>) returns (i: nat)
    requires n <= |h| && x in ItemsBelow(t, h, n)
    ensures i < n && t.usable(i) && h[i] == x
  {
    if t.usable(n - 1) && h[n - 1] == x {
      i := n - 1;
    } else {
      i := IndexOfItem(t, h, n - 1, x);
    }
  }

  lemma {:induction false} ItemAtIndex<K, V>(t: Tree, h: seq<Item<K, V>>, n: nat, i: nat)
    requires i < n <= |h| && t.usable(i)
    ensures h[i] in ItemsBelow(t, h, n)
  {
    if i < n - 1 {
      ItemAtIndex(t, h, n - 1, i);
    }
  }

  ghost predicate AllAfter<K(!new), V(!new)>(less: (K, K) -> bool, out: seq<Item<K, V>>, rest: multiset<Item<K, V>>) {
    forall i, x :: 0 <= i < |out| && x in rest ==> Leq(less, out[i].key, x.key)
  }

  predicate SortedByKey<K, V>(less: (K, K) -> bool, out: seq<Item<K, V>>) {
    forall i, j :: 0 <= i < j < |out| ==> Leq(less, out[i].key, out[j].key)
  }

  /** Taking a least item out of the rest and appending it keeps the output sorted. */
  lemma DrainStep<K(!new), V(!new)>(less: (K, K) -> bool, out: seq<Item<K, V>>, before: multiset<Item<K, V>>,
                                    after: multiset<Item<K, V>>, x: Item<K, V>)
    requires SortedByKey(less, out) && AllAfter(less, out, before)
    requires before == after + multiset{x} && forall y :: y in before ==> Leq(less, x.key, y.key)
    ensures SortedByKey(less, out + [x]) && AllAfter(less, out + [x], after)
    ensures multiset(out + [x]) + after == multiset(out) + before
    ensures |after| < |before|
  {
    assert x in before;
    assert forall y :: y in after ==> y in before;
    assert multiset(out + [x]) == multiset(out) + multiset{x};
  }

  /** Repeated `pop` drains the queue in sorted order. */
  method Drain<K(!new, 0), V(!new, 0)>(q: PrioQueue<K, V>) returns (out: seq<Item<K, V>>)
    requires q.Valid()
    modifies q.keys`end, q.keys.data, q.vals`end, q.vals.data
    ensures q.Valid() && q.Contents() == multiset{}
    ensures multiset(out) == old(q.Contents()) && SortedByKey(q.less, out)
  {
    out := [];
    ghost var all, rest := q.Contents(), q.Contents();
    var empty := q.Empty();
    while !empty
      invariant q.Valid() && q.keys.data == old(q.keys.data) && q.vals.data == old(q.vals.data)
      invariant rest == q.Contents() && (empty <==> rest == multiset{})
      invariant multiset(out) + rest == all
      invariant SortedByKey(q.less, out) && AllAfter(q.less, out, rest)
      decreases |rest|
    {
      var key, val := q.Top();
      q.Pop();
      DrainStep(q.less, out, rest, q.Contents(), Item(key, val));
      rest := q.Contents();
      out := out + [Item(key, val)];
      empty := q.Empty();
    }
  }
}
