/**
 Whole runs of the timer queue: what every operation returns and the layout it leaves, as functions
 of the operations alone. Elements are named by the order in which they are made.
 */
module TimerRuns {
  import opened TimerHeap
  import opened TimerQueues

  /** Make and add an element; add one again; take the top; remove one by its handle. */
  datatype Op = Schedule(time: Time) | Again(id: nat) | Next | Cancel(id: nat)

  /** What a caller sees; `Died` is the abort, after which nothing happens any more. */
  datatype Outcome<E> = Scheduled | Refused | Fired(elem: E) | Nothing | Cancelled | Died

  /** The heap of element numbers, and the time stored in every element ever made. */
  datatype State = State(heap: Heap<nat>, times: seq<Time>)

  const START: State := State([], [])

  /** The slot of element `id`, which the element itself stores; `|h|` when it is not queued. */
  function IndexOf(h: Heap<nat>, id: nat): (i: nat)
    ensures i <= |h| && (i < |h| ==> h[i].elem == id)
    ensures forall j :: 0 <= j < i ==> h[j].elem != id
  {
    if |h| == 0 || h[0].elem == id then 0 else 1 + IndexOf(h[1..], id)
  }

  function Step(s: State, op: Op): (r: (State, Outcome<nat>)) {
    var h, times := s.heap, s.times;
    match op
    case Schedule(t) => (State(Add(h, Timed(|times|, t)), times + [t]), Scheduled)
    case Again(id) =>
      if id >= |times| || IndexOf(h, id) < |h| then (s, Refused)
      else (State(Add(h, Timed(id, times[id])), times), Scheduled)
    case Next =>
      if |h| == 0 then (s, Nothing) else (State(WithoutTop(h), times), Fired(h[0].elem))
    case Cancel(id) =>
      var i := IndexOf(h, id);
      if id >= |times| || i == |h| then (s, Refused)
      else
        (State(WithoutTop(Minimized(h, i)), times[id := MinusInfinity]),
         if i != 0 && h[0].time == MinusInfinity then Died else Cancelled)
  }

  function Run(s: State, ops: seq<Op>): (r: (State, seq<Outcome<nat>>))
    ensures |r.1| <= |ops|
    decreases |ops|
  {
    if |ops| == 0 then (s, [])
    else
      var (e, out) := Step(s, ops[0]);
      if out == Died then (e, [out])
      else
        var (f, rest) := Run(e, ops[1..]);
        (f, [out] + rest)
  }

  // ---------- what every run keeps ----------

  /** Heap order; the queued elements are different, made, and queued with their own time. */
  ghost predicate Sound(s: State) {
    && HeapOrdered(s.heap)
    && (forall i, j :: 0 <= i < j < |s.heap| ==> s.heap[i].elem != s.heap[j].elem)
    && (forall i :: 0 <= i < |s.heap| ==> Genuine(s, s.heap[i]))
  }

  predicate Genuine(s: State, x: Timed<nat>) {
    x.elem < |s.times| && s.times[x.elem] == x.time
  }

  /** No element is queued twice, told from the multiset of the queued ones. */
  ghost predicate Single(m: multiset<Timed<nat>>) {
    forall x: Timed<nat>, y: Timed<nat> :: x in m && y in m && x.elem == y.elem ==> x == y && m[x] == 1
  }

  lemma SingleSlots(h: Heap<nat>)
    ensures Single(multiset(h)) <==> forall i, j :: 0 <= i < j < |h| ==> h[i].elem != h[j].elem
  {
    if Single(multiset(h)) {
      forall i, j | 0 <= i < j < |h| ensures h[i].elem != h[j].elem {
        assert h[i] in multiset(h) && h[j] in multiset(h);
        if h[i].elem == h[j].elem {
          TwiceInSeq(h, i, j);
          assert false;
        }
      }
    }
    if forall i, j :: 0 <= i < j < |h| ==> h[i].elem != h[j].elem {
      forall x: Timed<nat>, y: Timed<nat> | x in multiset(h) && y in multiset(h) && x.elem == y.elem ensures x == y && multiset(h)[x] == 1 {
        var i :| 0 <= i < |h| && h[i] == x;
        var j :| 0 <= j < |h| && h[j] == y;
        assert i == j;
        OnceInSeq(h, i);
      }
    }
  }

  lemma TwiceInSeq<T>(h: seq<T>, i: nat, j: nat)
    requires i < j < |h| && h[i] == h[j]
    ensures multiset(h)[h[i]] >= 2
  {
    assert h == h[..i] + [h[i]] + h[i + 1..j] + [h[j]] + h[j + 1..];
  }

  lemma OnceInSeq<T>(h: seq<T>, i: nat)
    requires i < |h| && forall j :: 0 <= j < |h| && j != i ==> h[j] != h[i]
    ensures multiset(h)[h[i]] == 1
  {
    assert h == h[..i] + [h[i]] + h[i + 1..];
    assert h[i] !in h[..i] && h[i] !in h[i + 1..];
  }

  lemma SoundItems(s: State)
    requires HeapOrdered(s.heap) && Single(multiset(s.heap)) && forall x :: x in multiset(s.heap) ==> Genuine(s, x)
    ensures Sound(s)
  {
    SingleSlots(s.heap);
    forall i | 0 <= i < |s.heap| ensures Genuine(s, s.heap[i]) {
      assert s.heap[i] in multiset(s.heap);
    }
  }

  lemma AddIsSound(s: State, id: nat, times: seq<Time>)
    requires Sound(s) && id < |times| && |s.times| <= |times| && IndexOf(s.heap, id) == |s.heap|
    requires forall k :: 0 <= k < |s.times| ==> times[k] == s.times[k]
    ensures Sound(State(Add(s.heap, Timed(id, times[id])), times))
  {
    var h, x := s.heap, Timed(id, times[id]);
    AddKeepsHeap(h, x);
    SingleSlots(h);
    forall y: Timed<nat> | y in multiset(h) ensures y.elem != id && Genuine(s, y) {
      var j :| 0 <= j < |h| && h[j] == y;
    }
    SoundItems(State(Add(h, x), times));
  }

  lemma WithoutTopIsSound(s: State)
    requires Sound(s) && |s.heap| > 0
    ensures Sound(State(WithoutTop(s.heap), s.times))
  {
    var h := s.heap;
    WithoutTopKeepsHeap(h);
    WithoutTopItems(h);
    SingleSlots(h);
    var r := multiset(WithoutTop(h));
    forall x: Timed<nat> | x in r ensures Genuine(s, x) && r[x] <= 1 {
      assert (r + multiset{h[0]})[x] == multiset(h)[x];
      var j :| 0 <= j < |h| && h[j] == x;
    }
    assert forall x :: x in r ==> x in multiset(h);
    SoundItems(State(WithoutTop(h), s.times));
  }

  lemma MinimizedIsSound(s: State, i: nat)
    requires Sound(s) && i < |s.heap|
    ensures Sound(State(Minimized(s.heap, i), s.times[s.heap[i].elem := MinusInfinity]))
  {
    var h, id := s.heap, s.heap[i].elem;
    var m, x, times := multiset(Minimized(h, i)), h[i].(time := MinusInfinity), s.times[id := MinusInfinity];
    MinimizedKeepsHeap(h, i);
    SingleSlots(h);
    forall y: Timed<nat> | y in m ensures m[y] <= 1 && (y == x || (y in multiset(h) && y.elem != id)) && Genuine(State(h, times), y) {
      assert (m + multiset{h[i]})[y] == (multiset(h) + multiset{x})[y];
    }
    SoundItems(State(Minimized(h, i), times));
  }

  lemma StepIsSound(s: State, op: Op)
    requires Sound(s)
    ensures Sound(Step(s, op).0)
  {
    match op
    case Schedule(t) => AddIsSound(s, |s.times|, s.times + [t]);
    case Again(id) =>
      if id < |s.times| && IndexOf(s.heap, id) == |s.heap| {
        AddIsSound(s, id, s.times);
      }
    case Next =>
      if |s.heap| > 0 {
        WithoutTopIsSound(s);
      }
    case Cancel(id) =>
      var i := IndexOf(s.heap, id);
      if id < |s.times| && i < |s.heap| {
        MinimizedIsSound(s, i);
        WithoutTopIsSound(State(Minimized(s.heap, i), s.times[id := MinusInfinity]));
      }
  }

  /** Every run keeps heap order and queues no element twice. */
  lemma {:induction false} RunIsSound(s: State, ops: seq<Op>)
    requires Sound(s)
    ensures Sound(Run(s, ops).0)
    decreases |ops|
  {
    if |ops| > 0 {
      StepIsSound(s, ops[0]);
      if Step(s, ops[0]).1 != Died {
        RunIsSound(Step(s, ops[0]).0, ops[1..]);
      }
    }
  }

  /** The element that fires has the earliest time of all queued ones. */
  lemma FiresEarliest(s: State)
    requires Sound(s) && Step(s, Next).1.Fired?
    ensures var id := Step(s, Next).1.elem;
            && id < |s.times| && (forall i :: 0 <= i < |s.heap| ==> !Before(s.heap[i].time, s.times[id]))
            && Earliest(s.times[id], multiset(s.heap))
  {
    assert Genuine(s, s.heap[0]);
    WithoutTopKeepsHeap(s.heap);
    forall i | 0 <= i < |s.heap| ensures !Before(s.heap[i].time, s.heap[0].time) {
      RootIsEarliest(s.heap, i);
    }
  }

  /** A removal by handle dies exactly when another element than the one asked for comes to the top. */
  lemma DiesIff(s: State, id: nat)
    requires Sound(s) && id < |s.times| && IndexOf(s.heap, id) < |s.heap|
    ensures Step(s, Cancel(id)).1 == Died <==> Minimized(s.heap, IndexOf(s.heap, id))[0].elem != id
  {
    MinimizedReachesTopIff(s.heap, IndexOf(s.heap, id));
  }

  // ---------- when removal by handle never aborts ----------

  /** Nothing at minus infinity is queued, and nothing in `ops` will put it there. */
  ghost predicate Lively(s: State, ops: seq<Op>) {
    && AllLater(s.heap)
    && (forall k :: 0 <= k < |ops| ==> Harmless(s, ops[k]))
    && (forall i, j :: 0 <= i < j < |ops| && ops[i].Cancel? && ops[j].Again? ==> ops[i].id != ops[j].id)
  }

  predicate Harmless(s: State, op: Op) {
    && (op.Schedule? ==> op.time != MinusInfinity)
    && (op.Again? && op.id < |s.times| ==> s.times[op.id] != MinusInfinity)
  }

  /** No queued element is at minus infinity. */
  ghost predicate AllLater(h: Heap<nat>) {
    forall x :: x in multiset(h) ==> x.time != MinusInfinity
  }

  lemma AddStaysLater(h: Heap<nat>, x: Timed<nat>)
    requires HeapOrdered(h) && AllLater(h) && x.time != MinusInfinity
    ensures AllLater(Add(h, x))
  {
    AddKeepsHeap(h, x);
  }

  lemma CancelStaysLater(s: State, id: nat)
    requires Sound(s) && AllLater(s.heap) && id < |s.times| && IndexOf(s.heap, id) < |s.heap|
    ensures Step(s, Cancel(id)).1 != Died && AllLater(Step(s, Cancel(id)).0.heap)
  {
    TakenOffStaysLater(s.heap, IndexOf(s.heap, id));
  }

  lemma TakenOffStaysLater(h: Heap<nat>, i: nat)
    requires HeapOrdered(h) && AllLater(h) && i < |h|
    requires forall a, b :: 0 <= a < b < |h| ==> h[a].elem != h[b].elem
    ensures h[0].time != MinusInfinity && AllLater(WithoutTop(Minimized(h, i)))
  {
    assert h[0] in multiset(h);
    MinimizedTakenOff(h, i);
    Smaller(multiset(WithoutTop(Minimized(h, i))), multiset(h), h[i]);
  }

  lemma StepStaysLater(s: State, op: Op)
    requires Sound(s) && AllLater(s.heap) && Harmless(s, op)
    ensures Step(s, op).1 != Died && AllLater(Step(s, op).0.heap)
  {
    var h := s.heap;
    match op
    case Schedule(t) => AddStaysLater(h, Timed(|s.times|, t));
    case Again(id) =>
      if id < |s.times| {
        AddStaysLater(h, Timed(id, s.times[id]));
      }
    case Next =>
      if |h| > 0 {
        WithoutTopItems(h);
        Smaller(multiset(WithoutTop(h)), multiset(h), h[0]);
      }
    case Cancel(id) =>
      if id < |s.times| && IndexOf(h, id) < |h| {
        CancelStaysLater(s, id);
      }
  }

  lemma Smaller<T>(r: multiset<T>, h: multiset<T>, x: T)
    requires r + multiset{x} == h
    ensures forall y :: y in r ==> y in h
  {
    forall y | y in r ensures y in h {
      assert y in r + multiset{x};
    }
  }

  lemma StaysLively(s: State, ops: seq<Op>)
    requires Sound(s) && Lively(s, ops) && |ops| > 0
    ensures Step(s, ops[0]).1 != Died && Lively(Step(s, ops[0]).0, ops[1..])
  {
    var op, e := ops[0], Step(s, ops[0]).0;
    assert Harmless(s, op);
    StepStaysLater(s, op);
    forall k | 0 <= k < |ops[1..]| ensures Harmless(e, ops[1..][k]) {
      assert Harmless(s, ops[k + 1]);
    }
  }

  /**
   No removal by handle aborts in a run that schedules nothing at minus infinity and adds no element
   again after cancelling it.
   */
  lemma {:induction false} LivelyRunNeverDies(s: State, ops: seq<Op>)
    requires Sound(s) && Lively(s, ops)
    ensures Died !in Run(s, ops).1
    decreases |ops|
  {
    if |ops| > 0 {
      StaysLively(s, ops);
      StepIsSound(s, ops[0]);
      LivelyRunNeverDies(Step(s, ops[0]).0, ops[1..]);
    }
  }

  /** Two elements at minus infinity: removing the second one by its handle aborts. */
  lemma TwoMinimaDie()
    ensures Died in Run(START, [Schedule(MinusInfinity)] + ([Schedule(MinusInfinity)] + [Cancel(1)])).1
  {
    OneThenOne(MinusInfinity, MinusInfinity);
    SecondDies(MinusInfinity);
    var s1 := State([Timed(0, MinusInfinity)], [MinusInfinity]);
    var s2 := State([Timed(0, MinusInfinity), Timed(1, MinusInfinity)], [MinusInfinity, MinusInfinity]);
    LastDies(s2, Cancel(1));
    RunContinues(s1, Schedule(MinusInfinity), s2, [Cancel(1)]);
    RunContinues(START, Schedule(MinusInfinity), s1, [Schedule(MinusInfinity)] + [Cancel(1)]);
  }

  lemma OneThenOne(a: Time, b: Time)
    ensures Step(State([], [a]), Again(0)) == (State([Timed(0, a)], [a]), Scheduled)
    ensures !Before(b, a) ==>
              Step(State([Timed(0, a)], [a]), Schedule(b)) == (State([Timed(0, a), Timed(1, b)], [a, b]), Scheduled)
    ensures Step(START, Schedule(a)) == (State([Timed(0, a)], [a]), Scheduled)
    ensures Step(State([Timed(0, a)], [a]), Cancel(0)) == (State([], [MinusInfinity]), Cancelled)
  {
    var h: Heap<nat> := [];
    var x, y: Timed<nat> := Timed(0, a), Timed(1, b);
    assert h + [x] == [x] && [x] + [y] == [x, y];
    var none: seq<Time> := [];
    assert none + [a] == [a] && [a] + [b] == [a, b];
    assert [a][0 := MinusInfinity] == [MinusInfinity];
    var m := Minimized([x], 0);
    assert m == [x.(time := MinusInfinity)];
    assert m[0 := m[0]][..0] == h;
  }

  lemma RunContinues(s: State, op: Op, e: State, rest: seq<Op>)
    requires Step(s, op).0 == e && Step(s, op).1 != Died && Died in Run(e, rest).1
    ensures Died in Run(s, [op] + rest).1
  {
    assert ([op] + rest)[1..] == rest;
  }

  lemma LastDies(s: State, op: Op)
    requires Step(s, op).1 == Died
    ensures Died in Run(s, [op]).1
  {
  }

  lemma SecondDies(b: Time)
    ensures Step(State([Timed(0, MinusInfinity), Timed(1, b)], [MinusInfinity, b]), Cancel(1)).1 == Died
  {
    var h: Heap<nat> := [Timed(0, MinusInfinity), Timed(1, b)];
    assert h[1..][0].elem == 1;
    assert IndexOf(h[1..], 1) == 0;
    assert IndexOf(h, 1) == 1;
  }

  /**
   The abort needs no infinite time from the caller: add an element again after cancelling it, which
   left it at minus infinity, and cancel another one.
   */
  lemma AgainAfterCancelDies(a: Time, b: Time)
    ensures Died in Run(START, [Schedule(a)] + ([Cancel(0)] + ([Again(0)] + ([Schedule(b)] + [Cancel(1)])))).1
  {
    OneThenOne(a, b);
    OneThenOne(MinusInfinity, b);
    SecondDies(b);
    var s1, s2, s3 := State([Timed(0, a)], [a]), State([], [MinusInfinity]), State([Timed(0, MinusInfinity)], [MinusInfinity]);
    var s4 := State([Timed(0, MinusInfinity), Timed(1, b)], [MinusInfinity, b]);
    LastDies(s4, Cancel(1));
    RunContinues(s3, Schedule(b), s4, [Cancel(1)]);
    RunContinues(s2, Again(0), s3, [Schedule(b)] + [Cancel(1)]);
    RunContinues(s1, Cancel(0), s2, [Again(0)] + ([Schedule(b)] + [Cancel(1)]));
    RunContinues(START, Schedule(a), s1, [Cancel(0)] + ([Again(0)] + ([Schedule(b)] + [Cancel(1)])));
  }

  // ---------- the objects follow the run ----------

  /** The same heap with its elements named otherwise. */
  function Renamed<E, F>(h: Heap<E>, f: E -> F): (r: Heap<F>)
    ensures |r| == |h| && forall i :: 0 <= i < |h| ==> r[i] == Timed(f(h[i].elem), h[i].time)
  {
    seq(|h|, i requires 0 <= i < |h| => Timed(f(h[i].elem), h[i].time))
  }

  lemma RenamedSwap<E, F>(h: Heap<E>, f: E -> F, i: nat, j: nat)
    requires i < |h| && j < |h|
    ensures Renamed(Swap(h, i, j), f) == Swap(Renamed(h, f), i, j)
  {
  }

  lemma {:induction false} RenamedBubbleUp<E, F>(h: Heap<E>, f: E -> F, bin: nat)
    requires bin < |h|
    ensures Renamed(BubbleUp(h, bin), f) == BubbleUp(Renamed(h, f), bin)
    decreases bin
  {
    if bin > 0 && Before(h[bin].time, h[bin / 2].time) {
      RenamedSwap(h, f, bin / 2, bin);
      RenamedBubbleUp(Swap(h, bin / 2, bin), f, bin / 2);
    }
  }

  lemma {:induction false} RenamedBubbleDown<E, F>(h: Heap<E>, f: E -> F, bin: nat)
    ensures Renamed(BubbleDown(h, bin), f) == BubbleDown(Renamed(h, f), bin)
    decreases |h| - bin
  {
    var l, r := 2 * bin, 2 * bin + 1;
    if l < |h| {
      RenamedSwap(h, f, l, bin);
    }
    if r < |h| {
      RenamedSwap(h, f, r, bin);
      if Before(h[l].time, h[r].time) {
        if Before(h[l].time, h[bin].time) {
          RenamedBubbleDown(Swap(h, l, bin), f, l);
        }
      } else if Before(h[r].time, h[bin].time) {
        RenamedBubbleDown(Swap(h, r, bin), f, r);
      }
    }
  }

  /** No operation looks at what an element is, only at its time and place. */
  lemma RenamedAdd<E, F>(h: Heap<E>, f: E -> F, x: Timed<E>)
    ensures Renamed(Add(h, x), f) == Add(Renamed(h, f), Timed(f(x.elem), x.time))
  {
    assert Renamed(h + [x], f) == Renamed(h, f) + [Timed(f(x.elem), x.time)];
    RenamedBubbleUp(h + [x], f, |h|);
  }

  lemma RenamedWithoutTop<E, F>(h: Heap<E>, f: E -> F)
    requires |h| > 0
    ensures Renamed(WithoutTop(h), f) == WithoutTop(Renamed(h, f))
  {
    var g := Renamed(h, f);
    assert |g| == |h|;
    assert Renamed(h[0 := h[|h| - 1]][..|h| - 1], f) == g[0 := g[|g| - 1]][..|g| - 1];
    RenamedBubbleDown(h[0 := h[|h| - 1]][..|h| - 1], f, 0);
  }

  lemma RenamedMinimized<E, F>(h: Heap<E>, f: E -> F, i: nat)
    requires i < |h|
    ensures Renamed(Minimized(h, i), f) == Minimized(Renamed(h, f), i)
  {
    var g := Renamed(h, f);
    assert |g| == |h|;
    var m := h[i := h[i].(time := MinusInfinity)];
    assert Renamed(m, f) == g[i := g[i].(time := MinusInfinity)];
    RenamedBubbleUp(m, f, i);
  }

  type Names = seq<PQElement>

  function NameOf(elems: Names): nat -> PQElement? {
    (id: nat) => if id < |elems| then elems[id] else null
  }

  /** The queue `q` and the elements made so far are in state `s`. */
  ghost predicate Follows(q: PriorityQueue, elems: Names, s: State)
    reads q, q.heap, q.heap[..], elems
  {
    && q.Valid() && Sound(s) && |elems| == |s.times|
    && (forall i, j :: 0 <= i < j < |elems| ==> elems[i] != elems[j])
    && (forall i :: 0 <= i < |elems| ==> elems[i].time == s.times[i])
    && q.View(q.heapSize) == Renamed(s.heap, NameOf(elems))
  }

  /** The outcome with the element itself in place of its number. */
  function Named(out: Outcome<nat>, elems: Names): Outcome<PQElement?> {
    if out.Fired? then Fired(NameOf(elems)(out.elem)) else
      match out
      case Scheduled => Scheduled
      case Refused => Refused
      case Nothing => Nothing
      case Cancelled => Cancelled
      case _ => Died
  }

  /** The elements queued are among those made, and which is queued can be told by number. */
  lemma MembersByNumber(q: PriorityQueue, elems: Names, s: State, id: nat)
    requires Follows(q, elems, s) && id < |elems|
    ensures forall e :: e in q.Members(q.heapSize) ==> e in elems
    ensures elems[id] in q.Members(q.heapSize) <==> IndexOf(s.heap, id) < |s.heap|
    ensures IndexOf(s.heap, id) < |s.heap| ==> elems[id].offset == IndexOf(s.heap, id)
  {
    var h, v := s.heap, q.View(q.heapSize);
    forall i | 0 <= i < |h| ensures h[i].elem < |elems| && q.heap[i] == elems[h[i].elem] {
      assert Genuine(s, h[i]);
      assert v[i] == Timed(NameOf(elems)(h[i].elem), h[i].time);
    }
  }

  /** `Add` of an element that is made or known, and not queued. */
  method PlayAdd(q: PriorityQueue, elems: Names, id: nat, ghost s: State)
    requires Follows(q, elems, s) && id < |elems| && IndexOf(s.heap, id) == |s.heap|
    modifies q, q.heap, elems
    ensures q.heap == old(q.heap) || fresh(q.heap)
    ensures Follows(q, elems, State(Add(s.heap, Timed(id, s.times[id])), s.times))
  {
    MembersByNumber(q, elems, s, id);
    AddIsSound(s, id, s.times);
    RenamedAdd(s.heap, NameOf(elems), Timed(id, s.times[id]));
    q.Add(elems[id]);
  }

  lemma KnownByNumber(s: State, h: Heap<nat>)
    requires Sound(s) && h == s.heap
    ensures forall i :: 0 <= i < |h| ==> h[i].elem < |s.times|
    ensures IndexOf(h, |s.times|) == |h|
  {
    forall i | 0 <= i < |h| ensures h[i].elem < |s.times| {
      assert Genuine(s, h[i]);
    }
  }

  lemma NewElement(q: PriorityQueue, elems: Names, s: State, e: PQElement)
    requires Follows(q, elems, s) && e !in elems && e !in q.Members(q.heapSize)
    ensures Follows(q, elems + [e], State(s.heap, s.times + [e.time]))
    ensures IndexOf(s.heap, |elems|) == |s.heap|
  {
    var h, t := s.heap, State(s.heap, s.times + [e.time]);
    KnownByNumber(s, h);
    forall i | 0 <= i < |h| ensures Genuine(t, h[i]) {
      assert Genuine(s, h[i]);
    }
    assert Renamed(h, NameOf(elems + [e])) == Renamed(h, NameOf(elems));
  }

  method PlaySchedule(q: PriorityQueue, elems: Names, op: Op, ghost s: State)
    returns (elems': Names, out: Outcome<PQElement?>)
    requires Follows(q, elems, s) && op.Schedule?
    modifies q, q.heap, elems
    ensures q.heap == old(q.heap) || fresh(q.heap)
    ensures |elems'| == |elems| + 1 && elems <= elems' && fresh(elems'[|elems|])
    ensures Follows(q, elems', Step(s, op).0) && out == Named(Step(s, op).1, elems')
  {
    var e := new PQElement(op.time);
    assert Follows(q, elems, s);
    NewElement(q, elems, s, e);
    elems', out := elems + [e], Scheduled;
    PlayAdd(q, elems', |elems|, State(s.heap, s.times + [op.time]));
  }

  method CanAdd(q: PriorityQueue, elems: Names, id: nat, ghost s: State) returns (can: bool)
    requires Follows(q, elems, s)
    ensures can <==> id < |s.times| && IndexOf(s.heap, id) == |s.heap|
  {
    can := false;
    if id < |elems| {
      MembersByNumber(q, elems, s, id);
      var queued := q.IsQueued(elems[id]);
      can := !queued;
    }
  }

  /** Adding an element that is unknown or queued is refused by the caller. */
  method PlayAgain(q: PriorityQueue, elems: Names, op: Op, ghost s: State) returns (out: Outcome<PQElement?>)
    requires Follows(q, elems, s) && op.Again?
    modifies q, q.heap, elems
    ensures q.heap == old(q.heap) || fresh(q.heap)
    ensures Follows(q, elems, Step(s, op).0) && out == Named(Step(s, op).1, elems)
  {
    out := Refused;
    var can := CanAdd(q, elems, op.id, s);
    if can {
      PlayAdd(q, elems, op.id, s);
      out := Scheduled;
    }
  }

  method PlayNext(q: PriorityQueue, ghost elems: Names, op: Op, ghost s: State) returns (out: Outcome<PQElement?>)
    requires Follows(q, elems, s) && op.Next?
    modifies q, q.heap, elems
    ensures q.heap == old(q.heap)
    ensures Follows(q, elems, Step(s, op).0) && out == Named(Step(s, op).1, elems)
  {
    if |s.heap| > 0 {
      WithoutTopIsSound(s);
      RenamedWithoutTop(s.heap, NameOf(elems));
      MembersByNumber(q, elems, s, s.heap[0].elem);
    }
    var top := q.Remove();
    out := if top == null then Nothing else Fired(top);
  }

  method PlayCancel(q: PriorityQueue, elems: Names, op: Op, ghost s: State) returns (out: Outcome<PQElement?>)
    requires Follows(q, elems, s) && op.Cancel?
    modifies q, q.heap, elems
    ensures q.heap == old(q.heap)
    ensures Follows(q, elems, Step(s, op).0) && out == Named(Step(s, op).1, elems)
  {
    if op.id >= |elems| {
      return Refused;
    }
    var r := PlayRemoval(q, elems, op.id, s);
    match r
    case NotMember => out := Refused;
    case Removed(_) => out := Cancelled;
    case Aborted => out := Died;
  }

  method PlayRemoval(q: PriorityQueue, elems: Names, id: nat, ghost s: State) returns (r: Removal)
    requires Follows(q, elems, s) && id < |elems|
    modifies q, q.heap, elems
    ensures q.heap == old(q.heap)
    ensures Follows(q, elems, Step(s, Cancel(id)).0)
    ensures match Step(s, Cancel(id)).1
            case Refused => r == NotMember
            case Died => r == Aborted
            case _ => r == Removed(elems[id])
  {
    ghost var i := IndexOf(s.heap, id);
    MembersByNumber(q, elems, s, id);
    StepIsSound(s, Cancel(id));
    if i < |s.heap| {
      RenamedMinimized(s.heap, NameOf(elems), i);
      RenamedWithoutTop(Minimized(s.heap, i), NameOf(elems));
    }
    r := q.RemoveElement(elems[id]);
  }

  /** One operation of a run. */
  method PlayOne(q: PriorityQueue, elems: Names, op: Op, ghost s: State)
    returns (elems': Names, out: Outcome<PQElement?>)
    requires Follows(q, elems, s)
    modifies q, q.heap, elems
    ensures q.heap == old(q.heap) || fresh(q.heap)
    ensures elems <= elems'
    ensures forall i :: |elems| <= i < |elems'| ==> fresh(elems'[i])
    ensures Follows(q, elems', Step(s, op).0) && out == Named(Step(s, op).1, elems')
  {
    if op.Schedule? {
      elems', out := PlaySchedule(q, elems, op, s);
    } else {
      elems' := elems;
      out := PlayKnown(q, elems, op, s);
    }
  }

  method PlayKnown(q: PriorityQueue, elems: Names, op: Op, ghost s: State) returns (out: Outcome<PQElement?>)
    requires Follows(q, elems, s) && !op.Schedule?
    modifies q, q.heap, elems
    ensures q.heap == old(q.heap) || fresh(q.heap)
    ensures Follows(q, elems, Step(s, op).0) && out == Named(Step(s, op).1, elems)
  {
    if op.Again? {
      out := PlayAgain(q, elems, op, s);
    } else if op.Next? {
      out := PlayNext(q, elems, op, s);
    } else {
      out := PlayCancel(q, elems, op, s);
    }
  }

  lemma RunFirst(s: State, ops: seq<Op>, d: State, out: Outcome<nat>)
    requires |ops| > 0 && (d, out) == Step(s, ops[0])
    ensures Run(s, ops) == if out == Died then (d, [out]) else var r := Run(d, ops[1..]); (r.0, [out] + r.1)
  {
  }

  lemma RunNothing(s: State)
    ensures Run(s, []) == (s, [])
  {
  }

  lemma Regroup<T>(a: seq<T>, b: seq<T>, c: seq<T>)
    ensures a + (b + c) == (a + b) + c
  {
  }

  lemma {:induction false} RunOneMore(s: State, ops: seq<Op>, n: nat)
    requires n < |ops| && Died !in Run(s, ops[..n]).1
    ensures var (e, outs) := Run(s, ops[..n]); var (f, out) := Step(e, ops[n]);
            && Run(s, ops[..n + 1]) == (f, outs + [out])
            && (out == Died ==> Run(s, ops) == (f, outs + [out]))
    decreases n
  {
    var (d, out) := Step(s, ops[0]);
    RunFirst(s, ops, d, out);
    RunFirst(s, ops[..n + 1], d, out);
    assert ops[..n + 1][1..] == ops[1..][..n];
    if n == 0 {
      assert ops[..0] == [] && ops[1..][..0] == [];
      RunNothing(d);
      RunNothing(s);
      assert [out] + [] == [out] == [] + [out];
    } else {
      RunFirst(s, ops[..n], d, out);
      assert ops[..n][1..] == ops[1..][..n - 1];
      RunOneMore(d, ops[1..], n - 1);
      var (e, outs) := Run(d, ops[1..][..n - 1]);
      Regroup([out], outs, [Step(e, ops[n]).1]);
    }
  }

  /** The outcomes seen are the ones expected, by the names of the elements made. */
  ghost predicate AllNamed(outs: seq<Outcome<PQElement?>>, expected: seq<Outcome<nat>>, elems: Names) {
    && |outs| == |expected|
    && forall i :: 0 <= i < |outs| ==> outs[i] == Named(expected[i], elems) && Known(expected[i], elems)
  }

  predicate Known(out: Outcome<nat>, elems: Names) {
    out.Fired? ==> out.elem < |elems|
  }

  lemma OneMoreNamed(outs: seq<Outcome<PQElement?>>, expected: seq<Outcome<nat>>, elems: Names, elems': Names,
                     out: Outcome<PQElement?>, result: Outcome<nat>)
    requires AllNamed(outs, expected, elems) && elems <= elems'
    requires out == Named(result, elems') && Known(result, elems')
    ensures AllNamed(outs + [out], expected + [result], elems')
  {
  }

  lemma FiredIsKnown(s: State, op: Op, elems: Names)
    requires Sound(s) && |s.times| <= |elems|
    ensures Known(Step(s, op).1, elems)
  {
    if op.Next? && |s.heap| > 0 {
      assert Genuine(s, s.heap[0]);
    }
  }

  /** The outcomes and the state after the first `n` operations, none of which was the last one. */
  predicate Alive(ops: seq<Op>, n: nat, s: State, expected: seq<Outcome<nat>>)
    requires n <= |ops|
  {
    (s, expected) == Run(START, ops[..n]) && Died !in expected
  }

  lemma TurnOfRun(ops: seq<Op>, n: nat, s: State, expected: seq<Outcome<nat>>)
    requires n < |ops| && Alive(ops, n, s, expected)
    ensures var (s', result) := Step(s, ops[n]);
            if result != Died then Alive(ops, n + 1, s', expected + [result])
            else (s', expected + [result]) == Run(START, ops)
  {
    RunOneMore(START, ops, n);
  }

  /** Operation `n` of a run, which goes on unless it dies. */
  method PlayTurn(q: PriorityQueue, elems: Names, outs: seq<Outcome<PQElement?>>, ops: seq<Op>, n: nat,
                  ghost s: State, ghost expected: seq<Outcome<nat>>)
    returns (elems': Names, outs': seq<Outcome<PQElement?>>, alive: bool, ghost s': State, ghost expected': seq<Outcome<nat>>)
    requires n < |ops| && Follows(q, elems, s) && AllNamed(outs, expected, elems) && Alive(ops, n, s, expected)
    modifies q, q.heap, elems
    ensures q.heap == old(q.heap) || fresh(q.heap)
    ensures elems <= elems'
    ensures forall i :: |elems| <= i < |elems'| ==> fresh(elems'[i])
    ensures Follows(q, elems', s') && AllNamed(outs', expected', elems')
    ensures if alive then Alive(ops, n + 1, s', expected') else (s', expected') == Run(START, ops)
  {
    TurnOfRun(ops, n, s, expected);
    FiredIsKnown(s, ops[n], elems);
    ghost var result;
    s', result := Step(s, ops[n]).0, Step(s, ops[n]).1;
    expected' := expected + [result];
    var out;
    elems', out := PlayOne(q, elems, ops[n], s);
    OneMoreNamed(outs, expected, elems, elems', out, result);
    outs' := outs + [out];
    alive := out != Died;
  }

  /**
   A whole run of either queue, from any initial array size: what it returns and the layout it
   leaves are a function of the operations alone.
   */
  method Play(unrolled: bool, initialSize: nat, ops: seq<Op>)
    returns (q: PriorityQueue, elems: Names, outs: seq<Outcome<PQElement?>>)
    requires initialSize > 0
    ensures fresh(q) && q.unrolled == unrolled
    ensures var (s, expected) := Run(START, ops); Follows(q, elems, s) && AllNamed(outs, expected, elems)
  {
    q := new PriorityQueue(initialSize, unrolled);
    elems, outs := [], [];
    ghost var s, expected := START, [];
    assert ops[..0] == [];
    var n, alive := 0, true;
    while alive && n < |ops|
      invariant fresh(q) && fresh(q.heap) && q.unrolled == unrolled
      invariant forall i :: 0 <= i < |elems| ==> fresh(elems[i])
      invariant Follows(q, elems, s) && AllNamed(outs, expected, elems)
      invariant n <= |ops| && if alive then Alive(ops, n, s, expected) else (s, expected) == Run(START, ops)
    {
      elems, outs, alive, s, expected := PlayTurn(q, elems, outs, ops, n, s, expected);
      n := n + 1;
    }
    if alive {
      AllDone(ops, s, expected);
    }
  }

  lemma AllDone(ops: seq<Op>, s: State, expected: seq<Outcome<nat>>)
    requires Alive(ops, |ops|, s, expected)
    ensures (s, expected) == Run(START, ops)
  {
    assert ops[..|ops|] == ops;
  }
}
