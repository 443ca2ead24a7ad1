/**
 The B-heap on values: sifting, the bottom-up pop and rescheduling over any tree of indices that
 is laid out like the heap of heaps, for any strict weak order on keys.
 */
module BHeap {
  import opened HeapAddressing

  datatype Item<K, V> = Item(key: K, val: V)

  // ---------- the order ----------

  ghost predicate StrictWeakOrder<K(!new)>(less: (K, K) -> bool) {
    && (forall a :: !less(a, a))
    && (forall a, b, c :: less(a, b) && less(b, c) ==> less(a, c))
    && (forall a, b, c :: !less(a, b) && !less(b, a) && !less(b, c) && !less(c, b) ==> !less(a, c) && !less(c, a))
  }

  /** `a` does not come after `b`. */
  predicate Leq<K>(less: (K, K) -> bool, a: K, b: K) {
    !less(b, a)
  }

  lemma LessIsLeq<K(!new)>(less: (K, K) -> bool, a: K, b: K)
    requires StrictWeakOrder(less) && less(a, b)
    ensures Leq(less, a, b)
  {
    assert less(b, a) ==> less(a, a);
  }

  lemma LeqTransitive<K(!new)>(less: (K, K) -> bool, a: K, b: K, c: K)
    requires StrictWeakOrder(less) && Leq(less, a, b) && Leq(less, b, c)
    ensures Leq(less, a, c)
  {
    assert less(c, a) && less(a, b) ==> less(c, b);
    assert less(b, c) && less(c, a) ==> less(b, a);
  }

  // ---------- the tree of indices ----------

  /** Parent and children of an index, and which indices may hold an element. */
  datatype Tree = Tree(parent: nat -> nat, left: nat -> nat, right: nat -> nat, usable: nat -> bool)

  ghost predicate IsTree(t: Tree) {
    && t.usable(1) && !t.usable(0)
    && (forall i: nat {:trigger t.parent(i)} :: t.usable(i) && i != 1 ==>
          t.usable(t.parent(i)) && t.parent(i) < i && (t.left(t.parent(i)) == i || t.right(t.parent(i)) == i))
    && (forall i: nat {:trigger t.left(i)} {:trigger t.right(i)} :: t.usable(i) ==>
          && i < t.left(i) < t.right(i) && t.usable(t.left(i)) && t.usable(t.right(i))
          && t.parent(t.left(i)) == i && t.parent(t.right(i)) == i)
  }

  /** The addressing of the heap of heaps as a tree. */
  function Blocks(k: nat): Tree
    requires k >= 1
  {
    Tree((i: nat) => ParentIndex(k, i), (i: nat) => LeftIndex(k, i), (i: nat) => RightIndex(k, i), (i: nat) => Usable(k, i))
  }

  function ParentIndex(k: nat, i: nat): (p: nat)
    requires k >= 1
    ensures Usable(k, i) && i != 1 ==> HasParent(k, i, p)
  {
    if Usable(k, i) && i != 1 then
      ParentDefined(k, i);
      ParentOf(k, i)
    else 0
  }

  function LeftIndex(k: nat, i: nat): (l: nat)
    requires k >= 1
    ensures Usable(k, i) ==> l == ChildOf(k, i)
  {
    if Usable(k, i) then
      ParentInvertsChild(k, i);
      ChildOf(k, i)
    else 0
  }

  function RightIndex(k: nat, i: nat): nat
    requires k >= 1
  {
    LeftIndex(k, i) + SiblingOffset(k, i)
  }

  lemma BlocksParents(k: nat, i: nat)
    requires k >= 1 && Usable(k, i) && i != 1
    ensures var p := ParentIndex(k, i); Usable(k, p) && p < i && (LeftIndex(k, p) == i || RightIndex(k, p) == i)
  {
    ParentDefined(k, i);
  }

  lemma BlocksChildren(k: nat, i: nat)
    requires k >= 1 && Usable(k, i)
    ensures var l, r := LeftIndex(k, i), RightIndex(k, i);
            && i < l < r && Usable(k, l) && Usable(k, r)
            && ParentIndex(k, l) == i && ParentIndex(k, r) == i
  {
    ParentInvertsChild(k, i);
  }

  lemma BlocksIsTree(k: nat)
    requires k >= 1
    ensures IsTree(Blocks(k))
  {
    Coordinates(k, 0, 0);
    Coordinates(k, 0, 1);
    forall i: nat | Usable(k, i) && i != 1
      ensures var p := ParentIndex(k, i); Usable(k, p) && p < i && (LeftIndex(k, p) == i || RightIndex(k, p) == i)
    {
      BlocksParents(k, i);
    }
    forall i: nat | Usable(k, i)
      ensures var l, r := LeftIndex(k, i), RightIndex(k, i);
              i < l < r && Usable(k, l) && Usable(k, r) && ParentIndex(k, l) == i && ParentIndex(k, r) == i
    {
      BlocksChildren(k, i);
    }
  }

  // ---------- heap order ----------

  /** Every usable index below `n` but the root holds a key not before its parent's. */
  predicate HeapBelow<K, V>(t: Tree, less: (K, K) -> bool, h: seq<Item<K, V>>, n: nat)
    requires n <= |h|
  {
    forall i: nat {:trigger t.parent(i)} :: 1 < i < n && t.usable(i) && t.parent(i) < n ==> Leq(less, h[t.parent(i)].key, h[i].key)
  }

  /** The order with a hole: nothing is said of the hole, and its children are not before its parent. */
  ghost predicate HoleBelow<K, V>(t: Tree, less: (K, K) -> bool, h: seq<Item<K, V>>, n: nat, hole: nat)
    requires n <= |h|
  {
    && (forall i: nat {:trigger t.parent(i)} :: 1 < i < n && t.usable(i) && t.parent(i) < n && i != hole && t.parent(i) != hole ==>
          Leq(less, h[t.parent(i)].key, h[i].key))
    && (hole != 1 && t.parent(hole) < n ==>
          forall i: nat {:trigger t.parent(i)} :: 1 < i < n && t.usable(i) && t.parent(i) == hole ==> Leq(less, h[t.parent(hole)].key, h[i].key))
  }

  ghost predicate ChildrenAfter<K, V>(t: Tree, less: (K, K) -> bool, h: seq<Item<K, V>>, n: nat, hole: nat, key: K)
    requires n <= |h|
  {
    forall i: nat {:trigger t.parent(i)} :: 1 < i < n && t.usable(i) && t.parent(i) == hole ==> Leq(less, key, h[i].key)
  }

  lemma {:induction false} RootIsLeast<K(!new), V>(t: Tree, less: (K, K) -> bool, h: seq<Item<K, V>>, n: nat, i: nat)
    requires IsTree(t) && StrictWeakOrder(less) && n <= |h| && HeapBelow(t, less, h, n)
    requires i < n && t.usable(i)
    ensures Leq(less, h[1].key, h[i].key)
    decreases i
  {
    if i != 1 {
      var p := t.parent(i);
      assert t.usable(p);
      RootIsLeast(t, less, h, n, p);
      LeqTransitive(less, h[1].key, h[p].key, h[i].key);
    }
  }

  // ---------- contents ----------

  function One<T(==)>(a: T, b: T): nat {
    if a == b then 1 else 0
  }

  /** How often `x` is stored at a usable index below `n`. */
  function CountBelow<K(==), V(==)>(t: Tree, h: seq<Item<K, V>>, n: nat, x: Item<K, V>): nat
    requires n <= |h|
  {
    if n == 0 then 0 else CountBelow(t, h, n - 1, x) + if t.usable(n - 1) then One(h[n - 1], x) else 0
  }

  /** The stored items as a multiset. */
  ghost function ItemsBelow<K, V>(t: Tree, h: seq<Item<K, V>>, n: nat): multiset<Item<K, V>>
    requires n <= |h|
  {
    if n == 0 then multiset{}
    else ItemsBelow(t, h, n - 1) + if t.usable(n - 1) then multiset{h[n - 1]} else multiset{}
  }

  lemma {:induction false} ItemsCount<K, V>(t: Tree, h: seq<Item<K, V>>, n: nat, x: Item<K, V>)
    requires n <= |h|
    ensures ItemsBelow(t, h, n)[x] == CountBelow(t, h, n, x)
  {
    if n > 0 {
      ItemsCount(t, h, n - 1, x);
      var a, b := ItemsBelow(t, h, n - 1), if t.usable(n - 1) then multiset{h[n - 1]} else multiset{};
      assert (a + b)[x] == a[x] + b[x];
    }
  }

  lemma {:induction false} CountFrame<K, V>(t: Tree, h: seq<Item<K, V>>, g: seq<Item<K, V>>, n: nat, x: Item<K, V>)
    requires n <= |h| && n <= |g| && forall i :: 0 <= i < n && t.usable(i) ==> h[i] == g[i]
    ensures CountBelow(t, h, n, x) == CountBelow(t, g, n, x)
  {
    if n > 0 {
      CountFrame(t, h, g, n - 1, x);
    }
  }

  lemma {:induction false} CountUpdate<K, V>(t: Tree, h: seq<Item<K, V>>, n: nat, i: nat, y: Item<K, V>, x: Item<K, V>)
    requires i < n <= |h| && t.usable(i)
    ensures CountBelow(t, h[i := y], n, x) + One(h[i], x) == CountBelow(t, h, n, x) + One(y, x)
  {
    if i == n - 1 {
      CountFrame(t, h, h[i := y], i, x);
    } else {
      CountUpdate(t, h, n - 1, i, y, x);
    }
  }

  // ---------- sifting up ----------

  /** Move the hole towards the root until `x` may be stored in it. */
  function SiftUp<K, V>(t: Tree, less: (K, K) -> bool, h: seq<Item<K, V>>, hole: nat, x: Item<K, V>): (r: seq<Item<K, V>>)
    requires IsTree(t) && hole < |h| && t.usable(hole)
    ensures |r| == |h|
    decreases hole
  {
    if hole == 1 then h[hole := x]
    else
      var p := t.parent(hole);
      if !less(x.key, h[p].key) then h[hole := x] else SiftUp(t, less, h[hole := h[p]], p, x)
  }

  lemma {:induction false} SiftUpFrame<K, V>(t: Tree, less: (K, K) -> bool, h: seq<Item<K, V>>, hole: nat, x: Item<K, V>, i: nat)
    requires IsTree(t) && hole < i < |h| && t.usable(hole)
    ensures SiftUp(t, less, h, hole, x)[i] == h[i]
    decreases hole
  {
    if hole != 1 && less(x.key, h[t.parent(hole)].key) {
      SiftUpFrame(t, less, h[hole := h[t.parent(hole)]], t.parent(hole), x, i);
    }
  }

  lemma {:induction false} SiftUpCount<K, V>(t: Tree, less: (K, K) -> bool, h: seq<Item<K, V>>, hole: nat, x: Item<K, V>,
                                             n: nat, y: Item<K, V>)
    requires IsTree(t) && hole < n <= |h| && t.usable(hole)
    ensures CountBelow(t, SiftUp(t, less, h, hole, x), n, y) + One(h[hole], y) == CountBelow(t, h, n, y) + One(x, y)
    decreases hole
  {
    var p := t.parent(hole);
    if hole == 1 || !less(x.key, h[p].key) {
      CountUpdate(t, h, n, hole, x, y);
    } else {
      CountUpdate(t, h, n, hole, h[p], y);
      SiftUpCount(t, less, h[hole := h[p]], p, x, n, y);
    }
  }

  lemma HoleMovesUp<K(!new), V>(t: Tree, less: (K, K) -> bool, h: seq<Item<K, V>>, n: nat, hole: nat, key: K)
    requires IsTree(t) && StrictWeakOrder(less) && 1 < hole < n <= |h| && t.usable(hole)
    requires HoleBelow(t, less, h, n, hole) && ChildrenAfter(t, less, h, n, hole, key)
    requires less(key, h[t.parent(hole)].key)
    ensures var p := t.parent(hole); var g := h[hole := h[p]];
            HoleBelow(t, less, g, n, p) && ChildrenAfter(t, less, g, n, p, key)
  {
    var p := t.parent(hole);
    var g := h[hole := h[p]];
    forall i: nat | 1 < i < n && t.usable(i) && t.parent(i) == p
      ensures Leq(less, key, g[i].key)
      ensures p != 1 ==> Leq(less, g[t.parent(p)].key, g[i].key)
    {
      LessIsLeq(less, key, h[p].key);
      if p != 1 {
        assert Leq(less, h[t.parent(p)].key, h[p].key);
      }
      if i != hole {
        assert Leq(less, h[p].key, h[i].key);
        LeqTransitive(less, key, h[p].key, h[i].key);
        if p != 1 {
          LeqTransitive(less, h[t.parent(p)].key, h[p].key, h[i].key);
        }
      }
    }
  }

  /** Sifting up from a hole whose children are not before `x` restores the heap order. */
  lemma {:induction false} SiftUpHeap<K(!new), V>(t: Tree, less: (K, K) -> bool, h: seq<Item<K, V>>, n: nat, hole: nat, x: Item<K, V>)
    requires IsTree(t) && StrictWeakOrder(less) && hole < n <= |h| && t.usable(hole)
    requires HoleBelow(t, less, h, n, hole) && ChildrenAfter(t, less, h, n, hole, x.key)
    ensures HeapBelow(t, less, SiftUp(t, less, h, hole, x), n)
    decreases hole
  {
    var p := t.parent(hole);
    if hole != 1 && less(x.key, h[p].key) {
      HoleMovesUp(t, less, h, n, hole, x.key);
      SiftUpHeap(t, less, h[hole := h[p]], n, p, x);
    }
  }

  // ---------- push ----------

  /** `push_key` with the new item already at the end. */
  function Push<K, V>(t: Tree, less: (K, K) -> bool, h: seq<Item<K, V>>): (r: seq<Item<K, V>>)
    requires IsTree(t) && |h| > 0 && t.usable(|h| - 1)
    ensures |r| == |h|
  {
    SiftUp(t, less, h, |h| - 1, h[|h| - 1])
  }

  /** A push restores heap order and only rearranges the items. */
  lemma PushKeepsHeap<K(!new), V(!new)>(t: Tree, less: (K, K) -> bool, h: seq<Item<K, V>>)
    requires IsTree(t) && StrictWeakOrder(less) && |h| > 0 && t.usable(|h| - 1)
    requires HeapBelow(t, less, h, |h| - 1)
    ensures HeapBelow(t, less, Push(t, less, h), |h|)
    ensures ItemsBelow(t, Push(t, less, h), |h|) == ItemsBelow(t, h, |h|)
  {
    var last := |h| - 1;
    SiftUpHeap(t, less, h, |h|, last, h[last]);
    forall y ensures ItemsBelow(t, Push(t, less, h), |h|)[y] == ItemsBelow(t, h, |h|)[y] {
      SiftUpCount(t, less, h, last, h[last], |h|, y);
      ItemsCount(t, Push(t, less, h), |h|, y);
      ItemsCount(t, h, |h|, y);
    }
  }

  // ---------- pop ----------

  /** The child the hole of a pop moves to; a right child that is the last element counts as absent. */
  function PopChild<K, V>(t: Tree, less: (K, K) -> bool, h: seq<Item<K, V>>, idx: nat): (next: nat)
    requires IsTree(t) && t.usable(idx) && t.left(idx) < |h|
    ensures idx < next < |h| && t.usable(next) && t.parent(next) == idx
  {
    var l, r := t.left(idx), t.right(idx);
    if r < |h| - 1 && !less(h[l].key, h[r].key) then r else l
  }

  /** Walk the hole at `idx` to the bottom; the array and where the hole ends. */
  function PopWalk<K, V>(t: Tree, less: (K, K) -> bool, h: seq<Item<K, V>>, idx: nat): (r: (seq<Item<K, V>>, nat))
    requires IsTree(t) && t.usable(idx) && idx < |h|
    ensures |r.0| == |h| && r.1 < |h| && t.usable(r.1)
    decreases |h| - idx
  {
    if t.left(idx) >= |h| then (h, idx)
    else
      var next := PopChild(t, less, h, idx);
      PopWalk(t, less, h[idx := h[next]], next)
  }

  /** The last item sifted up from the hole at `idx`, unless the hole is the last slot. */
  function Refilled<K, V>(t: Tree, less: (K, K) -> bool, h: seq<Item<K, V>>, idx: nat): (r: seq<Item<K, V>>)
    requires IsTree(t) && idx < |h| && t.usable(idx)
    ensures |r| == |h|
  {
    if idx != |h| - 1 then SiftUp(t, less, h, idx, h[|h| - 1]) else h
  }

  /** `pop`: walk the hole down, sift the last item up from there, drop the last slot. */
  function Pop<K, V>(t: Tree, less: (K, K) -> bool, h: seq<Item<K, V>>): (r: seq<Item<K, V>>)
    requires IsTree(t) && |h| > 1
    ensures |r| == |h| - 1
  {
    var (g, idx) := PopWalk(t, less, h, 1);
    Refilled(t, less, g, idx)[..|h| - 1]
  }

  /** What the walk keeps of the last element, which is outside the order being maintained. */
  ghost predicate LastInOrder<K, V>(t: Tree, less: (K, K) -> bool, h: seq<Item<K, V>>, idx: nat)
    requires |h| > 1
  {
    var last := |h| - 1;
    var q := t.parent(last);
    && (idx < q < last ==> Leq(less, h[q].key, h[last].key))
    && (idx == q && idx != 1 && t.parent(idx) < last ==> Leq(less, h[t.parent(idx)].key, h[last].key))
  }

  ghost predicate WalkState<K, V>(t: Tree, less: (K, K) -> bool, h: seq<Item<K, V>>, idx: nat)
    requires |h| > 1
  {
    var last := |h| - 1;
    if idx == last then HeapBelow(t, less, h, last)
    else HoleBelow(t, less, h, last, idx) && LastInOrder(t, less, h, idx)
  }

  /** The hole moves into the last element's slot: everything before it is in order. */
  lemma WalkOntoLast<K(!new), V>(t: Tree, less: (K, K) -> bool, h: seq<Item<K, V>>, idx: nat)
    requires IsTree(t) && |h| > 1 && t.usable(idx) && t.left(idx) < |h|
    requires PopChild(t, less, h, idx) == |h| - 1
    requires HoleBelow(t, less, h, |h| - 1, idx) && LastInOrder(t, less, h, idx)
    ensures HeapBelow(t, less, h[idx := h[|h| - 1]], |h| - 1)
  {
    var last := |h| - 1;
    var g := h[idx := h[last]];
    forall i: nat | 1 < i < last && t.usable(i) && t.parent(i) < last
      ensures Leq(less, g[t.parent(i)].key, g[i].key)
    {
      assert t.parent(i) != idx;
    }
  }

  lemma WalkBelowLast<K(!new), V>(t: Tree, less: (K, K) -> bool, h: seq<Item<K, V>>, idx: nat)
    requires IsTree(t) && StrictWeakOrder(less) && |h| > 1 && t.usable(idx) && t.left(idx) < |h|
    requires PopChild(t, less, h, idx) < |h| - 1 && HoleBelow(t, less, h, |h| - 1, idx)
    ensures var next := PopChild(t, less, h, idx); HoleBelow(t, less, h[idx := h[next]], |h| - 1, next)
  {
    var last, next := |h| - 1, PopChild(t, less, h, idx);
    var g := h[idx := h[next]];
    ChosenChildIsLeast(t, less, h, idx);
    forall i: nat | 1 < i < last && t.usable(i) && t.parent(i) < last && i != next && t.parent(i) != next
      ensures Leq(less, g[t.parent(i)].key, g[i].key)
    {
      if t.parent(i) == idx {
        assert Leq(less, h[next].key, h[i].key);
      } else if i == idx {
        assert Leq(less, h[t.parent(idx)].key, h[next].key);
      }
    }
    forall i: nat | 1 < i < last && t.usable(i) && t.parent(i) == next
      ensures Leq(less, g[idx].key, g[i].key)
    {
      assert Leq(less, h[next].key, h[i].key);
    }
  }

  lemma LastStaysInOrder<K(!new), V>(t: Tree, less: (K, K) -> bool, h: seq<Item<K, V>>, idx: nat)
    requires IsTree(t) && |h| > 1 && t.usable(|h| - 1) && t.usable(idx) && t.left(idx) < |h|
    requires PopChild(t, less, h, idx) < |h| - 1 && LastInOrder(t, less, h, idx)
    ensures var next := PopChild(t, less, h, idx); LastInOrder(t, less, h[idx := h[next]], next)
  {
  }

  lemma PopWalkStep<K(!new), V>(t: Tree, less: (K, K) -> bool, h: seq<Item<K, V>>, idx: nat)
    requires IsTree(t) && StrictWeakOrder(less) && |h| > 1 && t.usable(|h| - 1)
    requires t.usable(idx) && t.left(idx) < |h| && WalkState(t, less, h, idx)
    ensures var next := PopChild(t, less, h, idx); WalkState(t, less, h[idx := h[next]], next)
  {
    if PopChild(t, less, h, idx) == |h| - 1 {
      WalkOntoLast(t, less, h, idx);
    } else {
      WalkBelowLast(t, less, h, idx);
      LastStaysInOrder(t, less, h, idx);
    }
  }

  lemma ChosenChildIsLeast<K(!new), V>(t: Tree, less: (K, K) -> bool, h: seq<Item<K, V>>, idx: nat)
    requires IsTree(t) && StrictWeakOrder(less) && |h| > 1
    requires t.usable(idx) && t.left(idx) < |h|
    ensures var next := PopChild(t, less, h, idx);
            forall i: nat {:trigger t.parent(i)} :: 1 < i < |h| - 1 && t.usable(i) && t.parent(i) == idx ==> Leq(less, h[next].key, h[i].key)
  {
    var l, r, next := t.left(idx), t.right(idx), PopChild(t, less, h, idx);
    forall i: nat | 1 < i < |h| - 1 && t.usable(i) && t.parent(i) == idx
      ensures Leq(less, h[next].key, h[i].key)
    {
      assert i == l || i == r;
      if i == r && next == l {
        LessIsLeq(less, h[l].key, h[r].key);
      }
    }
  }

  /** The walk ends with the hole at the bottom and everything else in order. */
  lemma {:induction false} PopWalkOrder<K(!new), V>(t: Tree, less: (K, K) -> bool, h: seq<Item<K, V>>, idx: nat)
    requires IsTree(t) && StrictWeakOrder(less) && |h| > 1 && t.usable(|h| - 1)
    requires t.usable(idx) && idx < |h| && WalkState(t, less, h, idx)
    ensures var (g, end) := PopWalk(t, less, h, idx);
            WalkState(t, less, g, end) && t.left(end) >= |h|
    decreases |h| - idx
  {
    if t.left(idx) < |h| {
      PopWalkStep(t, less, h, idx);
      var next := PopChild(t, less, h, idx);
      PopWalkOrder(t, less, h[idx := h[next]], next);
    }
  }

  lemma {:induction false} PopWalkCount<K, V>(t: Tree, less: (K, K) -> bool, h: seq<Item<K, V>>, idx: nat, y: Item<K, V>)
    requires IsTree(t) && t.usable(idx) && idx < |h|
    ensures var (g, end) := PopWalk(t, less, h, idx);
            CountBelow(t, g, |h|, y) + One(h[idx], y) == CountBelow(t, h, |h|, y) + One(g[end], y)
    decreases |h| - idx
  {
    if t.left(idx) < |h| {
      var next := PopChild(t, less, h, idx);
      CountUpdate(t, h, |h|, idx, h[next], y);
      PopWalkCount(t, less, h[idx := h[next]], next, y);
    }
  }

  lemma WalkStarts<K(!new), V>(t: Tree, less: (K, K) -> bool, h: seq<Item<K, V>>)
    requires IsTree(t) && |h| > 1 && t.usable(|h| - 1) && HeapBelow(t, less, h, |h|)
    ensures WalkState(t, less, h, 1)
  {
  }

  lemma HeapPrefix<K, V>(t: Tree, less: (K, K) -> bool, h: seq<Item<K, V>>, n: nat)
    requires n <= |h| && HeapBelow(t, less, h, n)
    ensures HeapBelow(t, less, h[..n], n)
  {
  }

  /** Refilling the hole at the end of the walk restores heap order below the last slot. */
  lemma RefilledOrder<K(!new), V>(t: Tree, less: (K, K) -> bool, g: seq<Item<K, V>>, idx: nat)
    requires IsTree(t) && StrictWeakOrder(less) && |g| > 1 && idx < |g| && t.usable(idx) && t.left(idx) >= |g|
    requires WalkState(t, less, g, idx)
    ensures HeapBelow(t, less, Refilled(t, less, g, idx), |g| - 1)
  {
    var last := |g| - 1;
    if idx != last {
      SiftUpHeap(t, less, g, last, idx, g[last]);
    }
  }

  /** `pop` keeps heap order. */
  lemma PopKeepsHeap<K(!new), V>(t: Tree, less: (K, K) -> bool, h: seq<Item<K, V>>)
    requires IsTree(t) && StrictWeakOrder(less) && |h| > 1 && t.usable(|h| - 1)
    requires HeapBelow(t, less, h, |h|)
    ensures HeapBelow(t, less, Pop(t, less, h), |h| - 1)
  {
    WalkStarts(t, less, h);
    PopWalkOrder(t, less, h, 1);
    var (g, idx) := PopWalk(t, less, h, 1);
    RefilledOrder(t, less, g, idx);
    HeapPrefix(t, less, Refilled(t, less, g, idx), |h| - 1);
  }

  /** `pop` removes exactly the top item. */
  lemma PopRemovesTop<K(!new), V(!new)>(t: Tree, less: (K, K) -> bool, h: seq<Item<K, V>>)
    requires IsTree(t) && |h| > 1 && t.usable(|h| - 1)
    ensures ItemsBelow(t, Pop(t, less, h), |h| - 1) + multiset{h[1]} == ItemsBelow(t, h, |h|)
  {
    var last, r := |h| - 1, Pop(t, less, h);
    forall y ensures (ItemsBelow(t, r, last) + multiset{h[1]})[y] == ItemsBelow(t, h, |h|)[y] {
      PopCount(t, less, h, y);
      ItemsCount(t, r, last, y);
      ItemsCount(t, h, |h|, y);
    }
  }

  lemma PopCount<K, V>(t: Tree, less: (K, K) -> bool, h: seq<Item<K, V>>, y: Item<K, V>)
    requires IsTree(t) && |h| > 1 && t.usable(|h| - 1)
    ensures CountBelow(t, Pop(t, less, h), |h| - 1, y) + One(h[1], y) == CountBelow(t, h, |h|, y)
  {
    var last := |h| - 1;
    PopWalkCount(t, less, h, 1, y);
    var (g, idx) := PopWalk(t, less, h, 1);
    var s := if idx != last then SiftUp(t, less, g, idx, g[last]) else g;
    if idx != last {
      SiftUpCount(t, less, g, idx, g[last], |h|, y);
      SiftUpFrame(t, less, g, idx, g[last], last);
    }
    CountFrame(t, s, s[..last], last, y);
  }

  // ---------- reschedule ----------

  function LeastChild<K, V>(t: Tree, less: (K, K) -> bool, h: seq<Item<K, V>>, idx: nat): (next: nat)
    requires IsTree(t) && t.usable(idx) && t.left(idx) < |h|
    ensures idx < next < |h| && t.usable(next) && t.parent(next) == idx
  {
    var l, r := t.left(idx), t.right(idx);
    if r < |h| && !less(h[l].key, h[r].key) then r else l
  }

  /** `do_reschedule_top`: move the hole down until `x` goes before its children. */
  function SiftDown<K, V>(t: Tree, less: (K, K) -> bool, h: seq<Item<K, V>>, idx: nat, x: Item<K, V>): (r: seq<Item<K, V>>)
    requires IsTree(t) && t.usable(idx) && idx < |h|
    ensures |r| == |h|
    decreases |h| - idx
  {
    if t.left(idx) >= |h| then h[idx := x]
    else
      var next := LeastChild(t, less, h, idx);
      if less(x.key, h[next].key) then h[idx := x] else SiftDown(t, less, h[idx := h[next]], next, x)
  }

  lemma {:induction false} SiftDownCount<K, V>(t: Tree, less: (K, K) -> bool, h: seq<Item<K, V>>, idx: nat, x: Item<K, V>, y: Item<K, V>)
    requires IsTree(t) && t.usable(idx) && idx < |h|
    ensures CountBelow(t, SiftDown(t, less, h, idx, x), |h|, y) + One(h[idx], y) == CountBelow(t, h, |h|, y) + One(x, y)
    decreases |h| - idx
  {
    CountUpdate(t, h, |h|, idx, x, y);
    if t.left(idx) < |h| {
      var next := LeastChild(t, less, h, idx);
      if !less(x.key, h[next].key) {
        CountUpdate(t, h, |h|, idx, h[next], y);
        SiftDownCount(t, less, h[idx := h[next]], next, x, y);
      }
    }
  }

  lemma LeastChildIsLeast<K(!new), V>(t: Tree, less: (K, K) -> bool, h: seq<Item<K, V>>, idx: nat)
    requires IsTree(t) && StrictWeakOrder(less) && t.usable(idx) && t.left(idx) < |h|
    ensures ChildrenAfter(t, less, h, |h|, idx, h[LeastChild(t, less, h, idx)].key)
  {
    var l, r, next := t.left(idx), t.right(idx), LeastChild(t, less, h, idx);
    forall i: nat | 1 < i < |h| && t.usable(i) && t.parent(i) == idx
      ensures Leq(less, h[next].key, h[i].key)
    {
      assert i == l || i == r;
      if i == r && next == l {
        LessIsLeq(less, h[l].key, h[r].key);
      }
    }
  }

  lemma HoleMovesDown<K(!new), V>(t: Tree, less: (K, K) -> bool, h: seq<Item<K, V>>, idx: nat)
    requires IsTree(t) && StrictWeakOrder(less) && t.usable(idx) && t.left(idx) < |h|
    requires HoleBelow(t, less, h, |h|, idx)
    ensures var next := LeastChild(t, less, h, idx); HoleBelow(t, less, h[idx := h[next]], |h|, next)
  {
    var next := LeastChild(t, less, h, idx);
    LeastChildIsLeast(t, less, h, idx);
    var g := h[idx := h[next]];
    forall i: nat | 1 < i < |h| && t.usable(i) && t.parent(i) < |h| && i != next && t.parent(i) != next
      ensures Leq(less, g[t.parent(i)].key, g[i].key)
    {
      if t.parent(i) == idx {
        assert Leq(less, h[next].key, h[i].key);
      } else if i == idx {
        assert Leq(less, h[t.parent(idx)].key, h[next].key);
      }
    }
    forall i: nat | 1 < i < |h| && t.usable(i) && t.parent(i) == next
      ensures Leq(less, g[idx].key, g[i].key)
    {
      assert Leq(less, h[next].key, h[i].key);
    }
  }

  /** Sifting down restores the heap order when the hole's parent is not after `x`. */
  lemma {:induction false} SiftDownHeap<K(!new), V>(t: Tree, less: (K, K) -> bool, h: seq<Item<K, V>>, idx: nat, x: Item<K, V>)
    requires IsTree(t) && StrictWeakOrder(less) && t.usable(idx) && idx < |h|
    requires HoleBelow(t, less, h, |h|, idx)
    requires idx != 1 && t.parent(idx) < |h| ==> Leq(less, h[t.parent(idx)].key, x.key)
    ensures HeapBelow(t, less, SiftDown(t, less, h, idx, x), |h|)
    decreases |h| - idx
  {
    if t.left(idx) < |h| {
      var next := LeastChild(t, less, h, idx);
      if less(x.key, h[next].key) {
        LeastChildIsLeast(t, less, h, idx);
        LessIsLeq(less, x.key, h[next].key);
        forall i: nat | 1 < i < |h| && t.usable(i) && t.parent(i) == idx
          ensures Leq(less, x.key, h[i].key)
        {
          LeqTransitive(less, x.key, h[next].key, h[i].key);
        }
      } else {
        HoleMovesDown(t, less, h, idx);
        SiftDownHeap(t, less, h[idx := h[next]], next, x);
      }
    }
  }

  /** `reschedule_top`: the top item is replaced by `x`, and heap order is restored. */
  lemma RescheduleKeepsHeap<K(!new), V(!new)>(t: Tree, less: (K, K) -> bool, h: seq<Item<K, V>>, x: Item<K, V>)
    requires IsTree(t) && StrictWeakOrder(less) && |h| > 1 && HeapBelow(t, less, h, |h|)
    ensures HeapBelow(t, less, SiftDown(t, less, h, 1, x), |h|)
    ensures ItemsBelow(t, SiftDown(t, less, h, 1, x), |h|) + multiset{h[1]} == ItemsBelow(t, h, |h|) + multiset{x}
  {
    SiftDownHeap(t, less, h, 1, x);
    var r := SiftDown(t, less, h, 1, x);
    forall y ensures (ItemsBelow(t, r, |h|) + multiset{h[1]})[y] == (ItemsBelow(t, h, |h|) + multiset{x})[y] {
      SiftDownCount(t, less, h, 1, x, y);
      ItemsCount(t, r, |h|, y);
      ItemsCount(t, h, |h|, y);
    }
  }
}
