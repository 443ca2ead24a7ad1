/**
 The timer heap on values: a zero-based binary heap whose parent is `i / 2`, so that slot 0 has the
 single real child 1 and is its own left child.
 */
module TimerHeap {

  /** A double without NaN; `MinusInfinity` is `-HUGE_VAL`. */
  datatype Time = MinusInfinity | Finite(value: real) | PlusInfinity

  predicate Before(a: Time, b: Time) {
    match a
    case MinusInfinity => b != MinusInfinity
    case Finite(x) => b.PlusInfinity? || (b.Finite? && x < b.value)
    case PlusInfinity => false
  }

  datatype Timed<E> = Timed(elem: E, time: Time)

  type Heap<E> = seq<Timed<E>>

  /** The child at `j` is not before its parent. */
  predicate InOrder<E>(h: Heap<E>, j: nat)
    requires j < |h|
  {
    !Before(h[j].time, h[j / 2].time)
  }

  predicate HeapOrdered<E>(h: Heap<E>) {
    forall j :: 1 <= j < |h| ==> InOrder(h, j)
  }

  lemma {:induction false} RootIsEarliest<E>(h: Heap<E>, j: nat)
    requires HeapOrdered(h) && j < |h|
    ensures !Before(h[j].time, h[0].time)
  {
    if j > 0 {
      assert InOrder(h, j);
      RootIsEarliest(h, j / 2);
    }
  }

  function Swap<E>(h: Heap<E>, i: nat, j: nat): (r: Heap<E>)
    requires i < |h| && j < |h|
    ensures |r| == |h|
  {
    h[i := h[j]][j := h[i]]
  }

  lemma SwapPermutes<E>(h: Heap<E>, i: nat, j: nat)
    requires i < |h| && j < |h|
    ensures multiset(Swap(h, i, j)) == multiset(h)
  {
  }

  /** No element of `h` has an earlier time than `t`, by the numbers. */
  ghost predicate Earliest<E>(t: Time, h: multiset<Timed<E>>) {
    && (t.Finite? ==> forall x :: x in h ==> x.time != MinusInfinity && (x.time.Finite? ==> t.value <= x.time.value))
    && (t.PlusInfinity? ==> forall x :: x in h ==> x.time == PlusInfinity)
  }

  // ---------- bubbling up ----------

  function BubbleUp<E>(h: Heap<E>, bin: nat): (r: Heap<E>)
    requires bin < |h|
    ensures |r| == |h|
    decreases bin
  {
    if bin == 0 then h
    else
      var p := bin / 2;
      if Before(h[bin].time, h[p].time) then BubbleUp(Swap(h, p, bin), p) else h
  }

  lemma {:induction false} BubbleUpPermutes<E>(h: Heap<E>, bin: nat)
    requires bin < |h|
    ensures multiset(BubbleUp(h, bin)) == multiset(h)
    decreases bin
  {
    if bin > 0 && Before(h[bin].time, h[bin / 2].time) {
      SwapPermutes(h, bin / 2, bin);
      BubbleUpPermutes(Swap(h, bin / 2, bin), bin / 2);
    }
  }

  /** Ordered but for `bin` against its parent; the children of `bin` are not before that parent. */
  predicate OrderedAbove<E>(h: Heap<E>, bin: nat)
    requires bin < |h|
  {
    && (forall j :: 1 <= j < |h| && j != bin ==> InOrder(h, j))
    && (forall j :: 1 <= j < |h| && j / 2 == bin ==> !Before(h[j].time, h[bin / 2].time))
  }

  lemma {:induction false} BubbleUpOrders<E>(h: Heap<E>, bin: nat)
    requires bin < |h| && (if bin == 0 then HeapOrdered(h) else OrderedAbove(h, bin))
    ensures HeapOrdered(BubbleUp(h, bin))
    decreases bin
  {
    if bin > 0 {
      var p := bin / 2;
      if Before(h[bin].time, h[p].time) {
        var g := Swap(h, p, bin);
        forall j | 1 <= j < |g| && (j != p || p == 0) ensures InOrder(g, j) {
          assert j != bin ==> InOrder(h, j);
        }
        if p > 0 {
          assert InOrder(h, p);
          forall j | 1 <= j < |g| && j / 2 == p ensures !Before(g[j].time, g[p / 2].time) {
            assert j != bin ==> InOrder(h, j);
          }
        }
        BubbleUpOrders(g, p);
      } else {
        assert forall j :: 1 <= j < |h| ==> InOrder(h, j);
      }
    }
  }

  /** The only element at minus infinity bubbles up to the root. */
  lemma {:induction false} LoneMinimumReachesRoot<E>(h: Heap<E>, bin: nat)
    requires bin < |h| && h[bin].time == MinusInfinity
    requires forall j :: 0 <= j < |h| && j != bin ==> h[j].time != MinusInfinity
    ensures BubbleUp(h, bin)[0] == h[bin]
    decreases bin
  {
    if bin > 0 {
      LoneMinimumReachesRoot(Swap(h, bin / 2, bin), bin / 2);
    }
  }

  /** A root at minus infinity is never displaced. */
  lemma {:induction false} MinimumRootStays<E>(h: Heap<E>, bin: nat)
    requires bin < |h| && h[0].time == MinusInfinity
    ensures BubbleUp(h, bin)[0] == h[0]
    decreases bin
  {
    if bin > 0 && Before(h[bin].time, h[bin / 2].time) {
      MinimumRootStays(Swap(h, bin / 2, bin), bin / 2);
    }
  }

  // ---------- bubbling down ----------

  function BubbleDown<E>(h: Heap<E>, bin: nat): (r: Heap<E>)
    ensures |r| == |h|
    decreases |h| - bin
  {
    var l := 2 * bin;
    if l >= |h| then h
    else
      var v, r := h[bin].time, l + 1;
      if r >= |h| then
        if Before(h[l].time, v) then Swap(h, l, bin) else h
      else if Before(h[l].time, h[r].time) then
        if Before(h[l].time, v) then BubbleDown(Swap(h, l, bin), l) else h
      else if Before(h[r].time, v) then BubbleDown(Swap(h, r, bin), r)
      else h
  }

  lemma {:induction false} BubbleDownPermutes<E>(h: Heap<E>, bin: nat)
    ensures multiset(BubbleDown(h, bin)) == multiset(h)
    decreases |h| - bin
  {
    var l, r := 2 * bin, 2 * bin + 1;
    if l < |h| {
      SwapPermutes(h, l, bin);
    }
    if r < |h| {
      SwapPermutes(h, r, bin);
      if Before(h[l].time, h[r].time) {
        if Before(h[l].time, h[bin].time) {
          BubbleDownPermutes(Swap(h, l, bin), l);
        }
      } else if Before(h[r].time, h[bin].time) {
        BubbleDownPermutes(Swap(h, r, bin), r);
      }
    }
  }

  /** Ordered but for the children of `bin`, which are not before its parent. */
  predicate OrderedBelow<E>(h: Heap<E>, bin: nat) {
    && (forall j :: 1 <= j < |h| && j / 2 != bin ==> InOrder(h, j))
    && (bin > 0 ==> forall j :: 1 <= j < |h| && j / 2 == bin ==> !Before(h[j].time, h[bin / 2].time))
  }

  /** Swapping `bin` with its earlier child moves the disorder to that child. */
  lemma SwapMovesDown<E>(h: Heap<E>, bin: nat, c: nat)
    requires OrderedBelow(h, bin) && 1 <= c < |h| && c / 2 == bin && c != bin
    requires Before(h[c].time, h[bin].time)
    requires forall j :: 1 <= j < |h| && j / 2 == bin ==> !Before(h[j].time, h[c].time)
    ensures OrderedBelow(Swap(h, c, bin), c)
  {
    var g := Swap(h, c, bin);
    forall j | 1 <= j < |g| && j / 2 != c ensures InOrder(g, j) {
      assert j / 2 != bin ==> InOrder(h, j);
    }
    forall j | 1 <= j < |g| && j / 2 == c ensures !Before(g[j].time, g[c / 2].time) {
      assert InOrder(h, j);
    }
  }

  lemma {:induction false} BubbleDownOrders<E>(h: Heap<E>, bin: nat)
    requires OrderedBelow(h, bin)
    ensures HeapOrdered(BubbleDown(h, bin))
    decreases |h| - bin
  {
    var l, r := 2 * bin, 2 * bin + 1;
    if l < |h| {
      var c := if r < |h| && !Before(h[l].time, h[r].time) then r else l;
      assert forall j :: 1 <= j < |h| && j / 2 == bin ==> j == l || j == r;
      if Before(h[c].time, h[bin].time) {
        SwapMovesDown(h, bin, c);
        if r < |h| {
          BubbleDownOrders(Swap(h, c, bin), c);
        } else {
          assert forall j :: 1 <= j < |h| ==> j / 2 != c;
        }
      } else {
        forall j | 1 <= j < |h| ensures InOrder(h, j) {
        }
      }
    } else {
      assert forall j :: 1 <= j < |h| ==> j / 2 != bin;
    }
  }

  /** One turn of the unrolled loop: the heap after it and the bin it goes on with. */
  function DownTurn<E>(h: Heap<E>, bin: nat): (r: (Heap<E>, nat))
    requires 2 * bin < |h|
    ensures |r.0| == |h| && r.1 >= bin
  {
    var l, v := 2 * bin, h[bin].time;
    if l + 1 >= |h| then (if Before(h[l].time, v) then Swap(h, l, bin) else h, bin)
    else if Before(h[l].time, h[l + 1].time) then
      if Before(h[l].time, v) then (Swap(h, l, bin), l) else (h, bin)
    else if Before(h[l + 1].time, v) then (Swap(h, l + 1, bin), l + 1)
    else (h, bin)
  }

  /** The loop goes on exactly when the recursion does; slot 0 is never swapped with itself. */
  lemma DownTurnIsRecursion<E>(h: Heap<E>, bin: nat)
    requires 2 * bin < |h|
    ensures var (g, next) := DownTurn(h, bin);
            && (next == bin ==> BubbleDown(h, bin) == g)
            && (next != bin ==> next < |h| && BubbleDown(h, bin) == BubbleDown(g, next))
  {
    var l, v := 2 * bin, h[bin].time;
    if l + 1 < |h| {
      if Before(h[l].time, h[l + 1].time) {
        if Before(h[l].time, v) {
          assert l != bin;
          assert BubbleDown(h, bin) == BubbleDown(Swap(h, l, bin), l);
        }
      } else if Before(h[l + 1].time, v) {
        assert BubbleDown(h, bin) == BubbleDown(Swap(h, l + 1, bin), l + 1);
      }
    }
  }

  // ---------- the operations ----------

  function Add<E>(h: Heap<E>, x: Timed<E>): Heap<E> {
    BubbleUp(h + [x], |h|)
  }

  /** The heap after the root is replaced by the last element and that is bubbled down. */
  function WithoutTop<E>(h: Heap<E>): Heap<E>
    requires |h| > 0
  {
    BubbleDown(h[0 := h[|h| - 1]][..|h| - 1], 0)
  }

  /** The heap once the element at `i` was given the least time and bubbled up. */
  function Minimized<E>(h: Heap<E>, i: nat): (r: Heap<E>)
    requires i < |h|
    ensures |r| == |h|
  {
    BubbleUp(h[i := h[i].(time := MinusInfinity)], i)
  }

  /** Adding keeps heap order and adds exactly the new element. */
  lemma AddKeepsHeap<E>(h: Heap<E>, x: Timed<E>)
    requires HeapOrdered(h)
    ensures HeapOrdered(Add(h, x)) && multiset(Add(h, x)) == multiset(h) + multiset{x}
  {
    var g := h + [x];
    forall j | 1 <= j < |g| && j != |h| ensures InOrder(g, j) {
      assert InOrder(h, j);
    }
    BubbleUpOrders(g, |h|);
    BubbleUpPermutes(g, |h|);
  }

  /** Removing the top removes exactly the root, in any array. */
  lemma WithoutTopItems<E>(h: Heap<E>)
    requires |h| > 0
    ensures multiset(WithoutTop(h)) + multiset{h[0]} == multiset(h)
  {
    var n := |h| - 1;
    var g := h[0 := h[n]][..n];
    BubbleDownPermutes(g, 0);
    assert h == h[..n] + [h[n]];
    if n > 0 {
      assert g == [h[n]] + h[1..n];
      assert h[..n] == [h[0]] + h[1..n];
    }
  }

  /** Removing the top keeps heap order, and no element is before the root. */
  lemma WithoutTopKeepsHeap<E>(h: Heap<E>)
    requires HeapOrdered(h) && |h| > 0
    ensures HeapOrdered(WithoutTop(h))
    ensures forall x :: x in multiset(h) ==> !Before(x.time, h[0].time)
    ensures Earliest(h[0].time, multiset(h))
  {
    var n := |h| - 1;
    var g := h[0 := h[n]][..n];
    forall j | 1 <= j < |g| && j / 2 != 0 ensures InOrder(g, j) {
      assert InOrder(h, j);
    }
    BubbleDownOrders(g, 0);
    forall x | x in multiset(h) ensures !Before(x.time, h[0].time) {
      var j :| 0 <= j < |h| && h[j] == x;
      RootIsEarliest(h, j);
    }
  }

  /** Minimizing the time of a member and bubbling it up keeps heap order. */
  lemma MinimizedKeepsHeap<E>(h: Heap<E>, i: nat)
    requires HeapOrdered(h) && i < |h|
    ensures HeapOrdered(Minimized(h, i))
    ensures multiset(Minimized(h, i)) + multiset{h[i]} == multiset(h) + multiset{h[i].(time := MinusInfinity)}
  {
    var g := h[i := h[i].(time := MinusInfinity)];
    forall j | 1 <= j < |g| && j != i ensures InOrder(g, j) {
      assert InOrder(h, j);
    }
    if i > 0 {
      forall j | 1 <= j < |g| && j / 2 == i ensures !Before(g[j].time, g[i / 2].time) {
        assert InOrder(h, j) && InOrder(h, i);
      }
    }
    BubbleUpOrders(g, i);
    BubbleUpPermutes(g, i);
    assert h == h[..i] + [h[i]] + h[i + 1..];
    assert g == h[..i] + [g[i]] + h[i + 1..];
  }

  /**
   When removal by handle finds the element at the top. It does exactly when the element was the
   root, or the root was not already at minus infinity; otherwise the source aborts.
   */
  lemma MinimizedReachesTopIff<E>(h: Heap<E>, i: nat)
    requires HeapOrdered(h) && i < |h|
    requires forall a, b :: 0 <= a < b < |h| ==> h[a].elem != h[b].elem
    ensures Minimized(h, i)[0].elem == h[i].elem <==> (i == 0 || h[0].time != MinusInfinity)
    ensures i == 0 || h[0].time != MinusInfinity ==> Minimized(h, i)[0] == h[i].(time := MinusInfinity)
  {
    var g := h[i := h[i].(time := MinusInfinity)];
    if i > 0 && h[0].time == MinusInfinity {
      MinimumRootStays(g, i);
    } else if i > 0 {
      forall j | 0 <= j < |g| && j != i ensures g[j].time != MinusInfinity {
        RootIsEarliest(h, j);
      }
      LoneMinimumReachesRoot(g, i);
    }
  }

  /** Taking the minimized element off the top leaves the old heap without it. */
  lemma MinimizedTakenOff<E>(h: Heap<E>, i: nat)
    requires HeapOrdered(h) && i < |h| && (i == 0 || h[0].time != MinusInfinity)
    requires forall a, b :: 0 <= a < b < |h| ==> h[a].elem != h[b].elem
    ensures multiset(WithoutTop(Minimized(h, i))) + multiset{h[i]} == multiset(h)
  {
    var m := Minimized(h, i);
    MinimizedReachesTopIff(h, i);
    MinimizedKeepsHeap(h, i);
    WithoutTopItems(m);
    Exchange(multiset(WithoutTop(m)), multiset(h), multiset(m), m[0], h[i]);
  }

  lemma Exchange<T>(r: multiset<T>, h: multiset<T>, m: multiset<T>, x: T, y: T)
    requires r + multiset{x} == m && m + multiset{y} == h + multiset{x}
    ensures r + multiset{y} == h
  {
    assert (r + multiset{y}) + multiset{x} == h + multiset{x};
    assert r + multiset{y} == ((r + multiset{y}) + multiset{x}) - multiset{x};
    assert h == (h + multiset{x}) - multiset{x};
  }
}
