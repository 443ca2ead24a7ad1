/**
 The timer queue object: an array of elements that each record their own index. `unrolled` picks
 the bubbling-down loop of `PriorityQueueUnrolled` in place of the recursion of `PriorityQueue`; the
 two classes are otherwise the same, and no contract mentions the choice.
 */
module TimerQueues {
  import opened TimerHeap

  class PQElement {
    var time: Time
    var offset: int

    constructor (t: Time)
      ensures time == t && offset == -1
    {
      time := t;
      offset := -1;
    }
  }

  function Node(e: PQElement?, time: Time): Timed<PQElement?> {
    Timed(e, time)
  }

  datatype Removal = NotMember | Removed(e: PQElement) | Aborted

  class PriorityQueue {
    const unrolled: bool
    var heap: array<PQElement?>
    var heapSize: nat
    var peakHeapSize: nat
    var maxHeapSize: nat
    var cumulativeNum: nat

    /** The first `n` slots hold elements that know their index. */
    ghost predicate Holds(n: nat)
      reads this, heap, heap[..]
    {
      n <= heap.Length && forall i :: 0 <= i < n ==> heap[i] != null && heap[i].offset == i
    }

    ghost function View(n: nat): (h: Heap<PQElement?>)
      requires Holds(n)
      reads this, heap, heap[..]
      ensures |h| == n && forall i :: 0 <= i < n ==> h[i] == Node(heap[i], heap[i].time)
    {
      seq(n, i requires 0 <= i < n && Holds(n) reads this, heap, heap[..] => Node(heap[i], heap[i].time))
    }

    ghost function Members(n: nat): set<PQElement>
      requires n <= heap.Length
      reads this, heap
    {
      set e: PQElement | e in heap[..n]
    }

    ghost predicate Valid()
      reads this, heap, heap[..]
    {
      && heapSize < heap.Length == maxHeapSize
      && heapSize <= peakHeapSize <= cumulativeNum
      && Holds(heapSize) && HeapOrdered(View(heapSize))
    }

    /** The queued elements with their times. */
    ghost function Contents(): multiset<Timed<PQElement?>>
      requires Holds(heapSize)
      reads this, heap, heap[..]
    {
      multiset(View(heapSize))
    }

    constructor (initialSize: nat, unrolled: bool)
      requires initialSize > 0
      ensures Valid() && View(heapSize) == [] && Contents() == multiset{} && fresh(heap) && this.unrolled == unrolled
    {
      this.unrolled := unrolled;
      maxHeapSize := initialSize;
      heap := new PQElement?[initialSize](_ => null);
      peakHeapSize, heapSize, cumulativeNum := 0, 0, 0;
    }

    method Top() returns (e: PQElement?)
      requires Valid()
      ensures e == null <==> Contents() == multiset{}
      ensures e == if heapSize == 0 then null else heap[0]
      ensures e != null ==> Node(e, e.time) in Contents() && forall x :: x in Contents() ==> !Before(x.time, e.time)
      ensures e != null ==> Earliest(e.time, Contents())
    {
      if heapSize == 0 {
        return null;
      }
      ghost var h := View(heapSize);
      WithoutTopKeepsHeap(h);
      assert h[0] in multiset(h);
      return heap[0];
    }

    /** Elements in different slots are different. */
    lemma Distinct(n: nat)
      requires Holds(n)
      ensures forall a, b :: 0 <= a < b < n ==> View(n)[a].elem != View(n)[b].elem
    {
    }

    // ---------- moving elements ----------

    method SetElement(bin: nat, e: PQElement)
      requires bin < heap.Length
      modifies heap, e`offset
      ensures heap[..] == old(heap[..])[bin := e] && e.offset == bin
    {
      heap[bin] := e;
      e.offset := bin;
    }

    method Swap(bin1: nat, bin2: nat, ghost n: nat)
      requires Holds(n) && bin1 < n && bin2 < n
      modifies heap, Members(n)`offset
      ensures Holds(n) && View(n) == TimerHeap.Swap(old(View(n)), bin1, bin2)
      ensures Members(n) == old(Members(n))
    {
      var s := heap[bin1];
      SetElement(bin1, heap[bin2]);
      SetElement(bin2, s);
      assert heap[..n] == old(heap[..n])[bin1 := old(heap[bin2])][bin2 := s];
    }

    method BubbleUp(bin: nat, ghost n: nat)
      requires Holds(n) && bin < n
      modifies heap, Members(n)`offset
      ensures Holds(n) && View(n) == TimerHeap.BubbleUp(old(View(n)), bin)
      ensures Members(n) == old(Members(n))
      decreases bin
    {
      if bin == 0 {
        return;
      }
      var p := bin / 2;
      if Before(heap[bin].time, heap[p].time) {
        Swap(p, bin, n);
        BubbleUp(p, n);
      }
    }

    /** The recursive form. */
    method BubbleDownRecursive(bin: nat)
      requires Holds(heapSize)
      modifies heap, Members(heapSize)`offset
      ensures Holds(heapSize) && View(heapSize) == TimerHeap.BubbleDown(old(View(heapSize)), bin)
      ensures Members(heapSize) == old(Members(heapSize))
      decreases heapSize - bin
    {
      var l := 2 * bin;
      if l >= heapSize {
        return;
      }
      var v := heap[bin].time;
      var r := l + 1;
      if r >= heapSize {
        if Before(heap[l].time, v) {
          Swap(l, bin, heapSize);
        }
      } else {
        var lv, rv := heap[l].time, heap[r].time;
        if Before(lv, rv) {
          if Before(lv, v) {
            Swap(l, bin, heapSize);
            BubbleDownRecursive(l);
          }
        } else if Before(rv, v) {
          Swap(r, bin, heapSize);
          BubbleDownRecursive(r);
        }
      }
    }

    /** The body of the loop. */
    method DownTurn(bin: nat) returns (next: nat)
      requires Holds(heapSize) && 2 * bin < heapSize
      modifies heap, Members(heapSize)`offset
      ensures Holds(heapSize) && Members(heapSize) == old(Members(heapSize))
      ensures (View(heapSize), next) == TimerHeap.DownTurn(old(View(heapSize)), bin)
    {
      var l := 2 * bin;
      var v := heap[bin].time;
      var r := l + 1;
      next := bin;
      if r >= heapSize {
        if Before(heap[l].time, v) {
          Swap(l, bin, heapSize);
        }
      } else {
        var lv, rv := heap[l].time, heap[r].time;
        if Before(lv, rv) {
          if Before(lv, v) {
            Swap(l, bin, heapSize);
            next := l;
          }
        } else if Before(rv, v) {
          Swap(r, bin, heapSize);
          next := r;
        }
      }
    }

    /** The loop: it leaves exactly what the recursion leaves, from every start state. */
    method BubbleDownUnrolled(start: nat)
      requires Holds(heapSize)
      modifies heap, Members(heapSize)`offset
      ensures Holds(heapSize) && View(heapSize) == TimerHeap.BubbleDown(old(View(heapSize)), start)
      ensures Members(heapSize) == old(Members(heapSize))
    {
      ghost var h, g := View(heapSize), View(heapSize);
      var bin := start;
      var oldBin := -1;
      while oldBin != bin
        invariant Holds(heapSize) && Members(heapSize) == old(Members(heapSize)) && View(heapSize) == g
        invariant TimerHeap.BubbleDown(h, start) == if oldBin == bin then g else TimerHeap.BubbleDown(g, bin)
        invariant oldBin <= bin
        decreases if bin < heapSize then heapSize - bin else 0, if oldBin != bin then 1 else 0
      {
        if 2 * bin >= heapSize {
          break;
        }
        DownTurnIsRecursion(g, bin);
        oldBin := bin;
        bin := DownTurn(bin);
        g := View(heapSize);
      }
    }

    method BubbleDown(bin: nat)
      requires Holds(heapSize)
      modifies heap, Members(heapSize)`offset
      ensures Holds(heapSize) && View(heapSize) == TimerHeap.BubbleDown(old(View(heapSize)), bin)
      ensures Members(heapSize) == old(Members(heapSize))
    {
      if unrolled {
        BubbleDownUnrolled(bin);
      } else {
        BubbleDownRecursive(bin);
      }
    }

    // ---------- the public operations ----------

    /** Double the array, keeping its contents. */
    method Resize(newSize: nat)
      requires newSize >= heap.Length == maxHeapSize
      modifies this`heap, this`maxHeapSize
      ensures fresh(heap) && heap.Length == maxHeapSize == newSize
      ensures heap[..old(heap.Length)] == old(heap[..])
    {
      var grown := new PQElement?[newSize](_ => null);
      for i := 0 to maxHeapSize
        invariant forall j :: 0 <= j < i ==> grown[j] == heap[j]
        modifies grown
      {
        grown[i] := heap[i];
      }
      heap := grown;
      maxHeapSize := newSize;
    }

    /** Write an element behind the last one and bubble it up. */
    method Append(e: PQElement)
      requires Valid() && e !in Members(heapSize)
      modifies heap, e`offset, Members(heapSize)`offset
      ensures Holds(heapSize + 1)
      ensures View(heapSize + 1) == TimerHeap.Add(old(View(heapSize)), Node(e, e.time))
    {
      ghost var h, n := View(heapSize), heapSize + 1;
      SetElement(heapSize, e);
      forall i | 0 <= i < heapSize ensures heap[i] != null && heap[i] != e && heap[i].offset == i {
        assert heap[i] in old(Members(heapSize));
      }
      assert View(n) == h + [Node(e, e.time)];
      assert Members(n) <= old(Members(heapSize)) + {e};
      BubbleUp(heapSize, n);
    }

    /** Queue an element that is not queued yet. */
    method Add(e: PQElement)
      requires Valid() && e !in Members(heapSize)
      modifies this, heap, e`offset, Members(heapSize)`offset
      ensures Valid() && (heap == old(heap) || fresh(heap))
      ensures View(heapSize) == TimerHeap.Add(old(View(heapSize)), Node(e, e.time))
      ensures Contents() == old(Contents()) + multiset{Node(e, e.time)}
      ensures cumulativeNum == old(cumulativeNum) + 1
      ensures peakHeapSize == if old(peakHeapSize) < heapSize then heapSize else old(peakHeapSize)
    {
      ghost var h, x := View(heapSize), Node(e, e.time);
      AddKeepsHeap(h, x);
      Append(e);
      ghost var g := View(heapSize + 1);
      cumulativeNum := cumulativeNum + 1;
      heapSize := heapSize + 1;
      if heapSize > peakHeapSize {
        peakHeapSize := heapSize;
      }
      assert View(heapSize) == g;
      if heapSize >= maxHeapSize {
        Grow();
      }
      assert View(heapSize) == g;
    }

    /** Double the array when it is full. */
    method Grow()
      requires Holds(heapSize) && heapSize == heap.Length == maxHeapSize && heapSize > 0
      modifies this`heap, this`maxHeapSize
      ensures fresh(heap) && heapSize < heap.Length == maxHeapSize
      ensures Holds(heapSize) && View(heapSize) == old(View(heapSize))
    {
      Resize(maxHeapSize * 2);
      assert forall i :: 0 <= i < heapSize ==> heap[i] == heap[..old(heap.Length)][i];
    }

    /** Overwrite the front with the last element and bubble it down. */
    method PopFront() returns (e: PQElement)
      requires Holds(heapSize) && heapSize > 0
      modifies this`heapSize, heap, Members(heapSize)`offset
      ensures heapSize == old(heapSize) - 1 && Holds(heapSize)
      ensures View(heapSize) == WithoutTop(old(View(heapSize)))
      ensures e == old(heap[0])
      ensures Members(heapSize) <= old(Members(heapSize))
    {
      ghost var h, n := View(heapSize), heapSize - 1;
      e := heap[0];
      assert heap[n] in Members(heapSize);
      heapSize := heapSize - 1;
      SetElement(0, heap[heapSize]);
      assert View(n) == h[0 := h[n]][..n];
      assert Members(n) <= old(Members(heapSize));
      BubbleDown(0);
    }

    /** Take the top element off the queue, or null. */
    method Remove() returns (top: PQElement?)
      requires Valid()
      modifies this`heapSize, heap, Members(heapSize)`offset
      ensures Valid() && heap == old(heap)
      ensures top == null <==> old(heapSize) == 0
      ensures top == null ==> View(heapSize) == old(View(heapSize))
      ensures top != null ==>
                && top == old(heap[0]) && top.offset == -1
                && View(heapSize) == WithoutTop(old(View(heapSize)))
                && Contents() + multiset{Node(top, top.time)} == old(Contents())
                && forall x :: x in old(Contents()) ==> !Before(x.time, top.time)
      ensures top != null ==> Earliest(top.time, old(Contents()))
    {
      if heapSize == 0 {
        return null;
      }
      ghost var h := View(heapSize);
      WithoutTopKeepsHeap(h);
      WithoutTopItems(h);
      top := TakeFront();
    }

    /** Pop the front element and mark it as not queued. */
    method TakeFront() returns (e: PQElement)
      requires Holds(heapSize) && heapSize > 0
      modifies this`heapSize, heap, Members(heapSize)`offset
      ensures heapSize == old(heapSize) - 1 && Holds(heapSize)
      ensures View(heapSize) == WithoutTop(old(View(heapSize)))
      ensures e == old(heap[0]) && e.offset == -1
    {
      ghost var h := View(heapSize);
      Distinct(heapSize);
      WithoutTopItems(h);
      assert heap[0] in Members(heapSize);
      e := PopFront();
      ghost var g := View(heapSize);
      OutsideOf(heapSize, e, h);
      e.offset := -1;
      assert View(heapSize) == g;
    }

    /** The removed element is in no slot that is left. */
    lemma OutsideOf(n: nat, e: PQElement, h: Heap<PQElement?>)
      requires Holds(n) && |h| == n + 1 && h[0].elem == e && multiset(View(n)) + multiset{h[0]} == multiset(h)
      requires forall a, b :: 0 <= a < b < |h| ==> h[a].elem != h[b].elem
      ensures forall i :: 0 <= i < n ==> heap[i] != e
    {
      forall i | 0 <= i < n ensures heap[i] != e {
        if heap[i] == e {
          var x := View(n)[i];
          assert x in multiset(View(n));
          assert x in multiset(h);
          var j :| 0 <= j < |h| && h[j] == x;
          assert j == 0;
          assert multiset(h)[h[0]] >= 2;
          OnceOnly(h);
          assert false;
        }
      }
    }

    static lemma OnceOnly(h: Heap<PQElement?>)
      requires |h| > 0 && forall a, b :: 0 <= a < b < |h| ==> h[a].elem != h[b].elem
      ensures multiset(h)[h[0]] == 1
    {
      assert h == [h[0]] + h[1..];
      assert h[0] !in h[1..];
    }

    /** Whether the element is queued, by its recorded index. */
    method IsQueued(e: PQElement) returns (queued: bool)
      requires Holds(heapSize)
      ensures queued <==> e in Members(heapSize)
      ensures queued ==> 0 <= e.offset < heapSize && heap[e.offset] == e
    {
      queued := !(e.offset < 0 || e.offset >= heapSize || heap[e.offset] != e);
    }

    /** Remove a queued element, or abort. */
    method RemoveMember(e: PQElement) returns (r: Removal)
      requires Valid() && 0 <= e.offset < heapSize && heap[e.offset] == e
      modifies this`heapSize, heap, Members(heapSize)`offset, e
      ensures r == if e != old(heap[0]) && old(heap[0].time) == MinusInfinity then Aborted else Removed(e)
      ensures Valid() && heap == old(heap) && e.time == MinusInfinity
      ensures View(heapSize) == WithoutTop(Minimized(old(View(heapSize)), old(e.offset)))
      ensures r.Removed? ==>
                && e.offset == -1
                && Contents() + multiset{Node(e, old(e.time))} == old(Contents())
    {
      ghost var h, i := View(heapSize), e.offset;
      Distinct(heapSize);
      MinimizedReachesTopIff(h, i);
      var e2 := MinimizeAndRemove(e);
      assert e != old(heap[0]) <==> i != 0;
      if e != e2 {
        return Aborted;
      }
      MinimizedTakenOff(h, i);
      return Removed(e2);
    }

    /** Give a member the least time, bubble it up, and take the top off. */
    method MinimizeAndRemove(e: PQElement) returns (top: PQElement)
      requires Valid() && 0 <= e.offset < heapSize && heap[e.offset] == e
      modifies this`heapSize, heap, Members(heapSize)`offset, e
      ensures Valid() && heap == old(heap) && e.time == MinusInfinity && top.offset == -1
      ensures var m := Minimized(old(View(heapSize)), old(e.offset));
              && top == m[0].elem && View(heapSize) == WithoutTop(m)
              && Contents() + multiset{m[0]} == multiset(m)
    {
      MinimizedKeepsHeap(View(heapSize), e.offset);
      ghost var m := Minimized(View(heapSize), e.offset);
      MinimizeAndBubble(e);
      assert m[0].elem == heap[0] && m[0].time == heap[0].time;
      top := Remove();
    }

    /**
     Remove an element by its recorded index. It is refused unless the element is queued; a queued
     one is removed, and nothing else, unless another element sits at the top with the least time of
     all, which is exactly when the source aborts. The layout left is stated for both.
     */
    method RemoveElement(e: PQElement) returns (r: Removal)
      requires Valid()
      modifies this`heapSize, heap, Members(heapSize)`offset, e
      ensures r == NotMember <==> e !in old(Members(heapSize))
      ensures r == NotMember ==> Valid() && View(heapSize) == old(View(heapSize)) && e.offset == old(e.offset) && e.time == old(e.time)
      ensures r == Aborted <==>
                e in old(Members(heapSize)) && e != old(heap[0]) && old(heap[0].time) == MinusInfinity
      ensures r != NotMember ==>
                && Valid() && e.time == MinusInfinity
                && 0 <= old(e.offset) < old(heapSize) && old(View(heapSize))[old(e.offset)].elem == e
                && View(heapSize) == WithoutTop(Minimized(old(View(heapSize)), old(e.offset)))
      ensures heap == old(heap)
      ensures r.Removed? ==>
                && r.e == e && e.offset == -1
                && Contents() + multiset{Node(e, old(e.time))} == old(Contents())
    {
      var queued := IsQueued(e);
      if !queued {
        return NotMember;
      }
      r := RemoveMember(e);
    }

    /** Give a member the least time and bubble it up. */
    method MinimizeAndBubble(e: PQElement)
      requires Holds(heapSize) && 0 <= e.offset < heapSize && heap[e.offset] == e
      modifies heap, Members(heapSize)`offset, e
      ensures Holds(heapSize) && View(heapSize) == Minimized(old(View(heapSize)), old(e.offset))
      ensures Members(heapSize) == old(Members(heapSize)) && e.time == MinusInfinity
    {
      ghost var h, i := View(heapSize), e.offset;
      assert heap[i] in Members(heapSize);
      e.time := MinusInfinity;
      assert View(heapSize) == h[i := h[i].(time := MinusInfinity)];
      BubbleUp(e.offset, heapSize);
    }
  }
}
