/**
 The two displacement chains of the dictionary: insertion pushes the head of every following
 cluster to that cluster's end, removal pulls the tail of every following cluster forward.
 */
module DictChains {
  import opened DictTable

  /** Slot `s` can be written at `i`: it continues its own cluster and precedes a larger bucket. */
  predicate Fits(t: Table, s: Slot, i: nat) {
    && i <= |t| && s.Used? && Linked(Before(t, i), s)
    && (i < |t| && t[i].Used? ==> i - s.distance < Bucket(t, i))
  }

  /** The slot displaced from `i`, carried to the end of its run. */
  function Displaced(t: Table, i: nat): Slot
    requires i < |t| && t[i].Used?
  {
    t[i].(distance := t[i].distance + (EndOfRun(t, Bucket(t, i), i) - i))
  }

  lemma WriteKeepsClusters(t: Table, s: Slot, i: nat)
    requires Clustered(t) && Fits(t, s, i) && i < |t|
    ensures Clustered(t[i := s])
  {
    var u := t[i := s];
    forall j | 0 <= j < |u| ensures LinkedAt(u, j) {
      assert LinkedAt(t, j);
    }
  }

  lemma DisplacedFits(t: Table, s: Slot, i: nat)
    requires Clustered(t) && Fits(t, s, i) && i < |t| && t[i].Used?
    ensures Clustered(t[i := s])
    ensures EndOfRun(t, Bucket(t, i), i) > i
    ensures Fits(t[i := s], Displaced(t, i), EndOfRun(t, Bucket(t, i), i))
  {
    WriteKeepsClusters(t, s, i);
    var u, d, next := t[i := s], Displaced(t, i), EndOfRun(t, Bucket(t, i), i);
    assert next - d.distance == Bucket(t, i);
    if next > i + 1 {
      assert u[next - 1] == t[next - 1];
    }
    if next < |t| && t[next].Used? {
      assert u[next] == t[next];
      assert LinkedAt(t, next);
      DistanceBound(t, i);
    }
  }

  lemma AppendKeepsClusters(t: Table, s: Slot)
    requires Clustered(t) && Fits(t, s, |t|)
    ensures Clustered(t + [s])
  {
    var u := t + [s];
    forall j | 0 <= j < |u| ensures LinkedAt(u, j) {
      assert j < |t| ==> LinkedAt(t, j);
    }
  }

  /**
   `InsertAndRelocate`: the table after writing `s` at `i`, and the last affected position.
   When the chain runs off the end, the table is one slot longer.
   */
  function InsertChain(t: Table, s: Slot, i: nat): (r: (Table, nat))
    requires Clustered(t) && Fits(t, s, i)
    ensures Clustered(r.0)
    ensures i <= r.1 <= |t|
    ensures |r.0| == if r.1 == |t| then |t| + 1 else |t|
    decreases |t| - i
  {
    if i == |t| then
      AppendKeepsClusters(t, s);
      (t + [s], i)
    else if t[i].Empty? then
      WriteKeepsClusters(t, s, i);
      (t[i := s], i)
    else
      DisplacedFits(t, s, i);
      InsertChain(t[i := s], Displaced(t, i), EndOfRun(t, Bucket(t, i), i))
  }

  /** Slots outside the affected range are untouched, and `s` stays where it was written. */
  lemma {:induction false} InsertChainFrame(t: Table, s: Slot, i: nat)
    requires Clustered(t) && Fits(t, s, i)
    ensures var r := InsertChain(t, s, i);
            && r.0[i] == s
            && (forall j :: 0 <= j < i ==> r.0[j] == t[j])
            && (forall j :: r.1 < j < |t| ==> r.0[j] == t[j])
    decreases |t| - i
  {
    if i < |t| && t[i].Used? {
      DisplacedFits(t, s, i);
      var u, d, next := t[i := s], Displaced(t, i), EndOfRun(t, Bucket(t, i), i);
      InsertChainFrame(u, d, next);
      assert InsertChain(t, s, i) == InsertChain(u, d, next);
    }
  }

  lemma {:induction false} InsertChainCount(t: Table, s: Slot, i: nat, h: Home)
    requires Clustered(t) && Fits(t, s, i)
    ensures Homes(InsertChain(t, s, i).0)[h] == Homes(t)[h] + Has(s, i, h)
    decreases |t| - i
  {
    if i == |t| {
      HomesAppend(t, s);
      HasIsMultiplicity(s, i, h);
    } else {
      HomesUpdate(t, i, s, h);
      if t[i].Used? {
        var u, d, next := t[i := s], Displaced(t, i), EndOfRun(t, Bucket(t, i), i);
        DisplacedFits(t, s, i);
        InsertChainCount(u, d, next, h);
        assert InsertChain(t, s, i) == InsertChain(u, d, next);
        assert Has(d, next, h) == Has(t[i], i, h);
      }
    }
  }

  /** Insertion adds exactly one home; every other entry keeps its effective bucket. */
  lemma InsertChainHomes(t: Table, s: Slot, i: nat)
    requires Clustered(t) && Fits(t, s, i)
    ensures Homes(InsertChain(t, s, i).0) == Homes(t) + HomeAt(s, i)
  {
    forall h ensures Homes(InsertChain(t, s, i).0)[h] == (Homes(t) + HomeAt(s, i))[h] {
      InsertChainCount(t, s, i, h);
      HasIsMultiplicity(s, i, h);
    }
  }

  // ---------- removal ----------

  /** The slot `RemoveAndRelocate` pulls into `i`: the tail of the run that starts after `i`. */
  function TailOfRun(t: Table, i: nat): (tail: nat)
    requires i < |t| && t[i].Used?
    ensures i <= tail < |t| && t[tail].Used? && Bucket(t, tail) == Bucket(t, i)
  {
    EndOfRun(t, Bucket(t, i), i) - 1
  }

  predicate NothingToPull(t: Table, i: nat)
    requires i < |t|
  {
    i == |t| - 1 || t[i + 1].Empty? || t[i + 1].distance == 0
  }

  /** The slot pulled forward to `i`, with its distance reduced by the step. */
  function Pulled(t: Table, i: nat): (s: Slot)
    requires Clustered(t) && i < |t| && t[i].Used? && !NothingToPull(t, i)
    ensures s.Used? && s.entry == t[TailOfRun(t, i + 1)].entry
    ensures i - s.distance == Bucket(t, TailOfRun(t, i + 1)) == Bucket(t, i + 1)
  {
    var next := TailOfRun(t, i + 1);
    assert next - t[next].distance == i + 1 - t[i + 1].distance;
    t[next].(distance := t[next].distance - (next - i))
  }

  lemma PulledKeepsClusters(t: Table, i: nat)
    requires Clustered(t) && i < |t| && t[i].Used? && !NothingToPull(t, i)
    ensures Clustered(t[i := Pulled(t, i)])
  {
    var u := t[i := Pulled(t, i)];
    assert LinkedAt(t, i + 1);
    forall j | 0 <= j < |u| ensures LinkedAt(u, j) {
      assert LinkedAt(t, j);
    }
  }

  /** `RemoveAndRelocate`: the table without the entry at `i`, and the last affected position. */
  function RemoveChain(t: Table, i: nat): (r: (Table, nat))
    requires Clustered(t) && i < |t| && t[i].Used?
    ensures Clustered(r.0)
    ensures |r.0| == |t|
    ensures i <= r.1 < |t|
    decreases |t| - i
  {
    if NothingToPull(t, i) then
      EmptyTheTail(t, i);
      (t[i := Empty], i)
    else
      PulledKeepsClusters(t, i);
      RemoveChain(t[i := Pulled(t, i)], TailOfRun(t, i + 1))
  }

  lemma EmptyTheTail(t: Table, i: nat)
    requires Clustered(t) && i < |t| && NothingToPull(t, i)
    ensures Clustered(t[i := Empty])
  {
    var u := t[i := Empty];
    forall j | 0 <= j < |u| ensures LinkedAt(u, j) {
      assert LinkedAt(t, j);
    }
  }

  /** Slots outside the affected range are untouched, and its last slot is vacated. */
  lemma {:induction false} RemoveChainFrame(t: Table, i: nat)
    requires Clustered(t) && i < |t| && t[i].Used?
    ensures var r := RemoveChain(t, i);
            && r.0[r.1] == Empty
            && (forall j :: 0 <= j < i ==> r.0[j] == t[j])
            && (forall j :: r.1 < j < |t| ==> r.0[j] == t[j])
    decreases |t| - i
  {
    if !NothingToPull(t, i) {
      var s, next := Pulled(t, i), TailOfRun(t, i + 1);
      PulledKeepsClusters(t, i);
      RemoveChainFrame(t[i := s], next);
      assert RemoveChain(t, i) == RemoveChain(t[i := s], next);
    }
  }

  lemma {:induction false} RemoveChainCount(t: Table, i: nat, h: Home)
    requires Clustered(t) && i < |t| && t[i].Used?
    ensures Homes(RemoveChain(t, i).0)[h] + Has(t[i], i, h) == Homes(t)[h]
    decreases |t| - i
  {
    if NothingToPull(t, i) {
      HomesUpdate(t, i, Empty, h);
    } else {
      var s, next := Pulled(t, i), TailOfRun(t, i + 1);
      PulledKeepsClusters(t, i);
      var u := t[i := s];
      HomesUpdate(t, i, s, h);
      RemoveChainCount(u, next, h);
      assert RemoveChain(t, i) == RemoveChain(u, next);
      assert Has(s, i, h) == Has(u[next], next, h);
    }
  }

  /** Removal drops exactly one home; every other entry keeps its effective bucket. */
  lemma RemoveChainHomes(t: Table, i: nat)
    requires Clustered(t) && i < |t| && t[i].Used?
    ensures Homes(RemoveChain(t, i).0) + HomeAt(t[i], i) == Homes(t)
  {
    forall h ensures (Homes(RemoveChain(t, i).0) + HomeAt(t[i], i))[h] == Homes(t)[h] {
      RemoveChainCount(t, i, h);
      HasIsMultiplicity(t[i], i, h);
    }
  }

  /** All slots of the affected range except its last stay occupied. */
  lemma {:induction false} RemoveChainFills(t: Table, i: nat, j: nat)
    requires Clustered(t) && i < |t| && t[i].Used?
    requires i <= j < RemoveChain(t, i).1
    ensures RemoveChain(t, i).0[j].Used?
    decreases |t| - i
  {
    if !NothingToPull(t, i) {
      var s, next := Pulled(t, i), TailOfRun(t, i + 1);
      PulledKeepsClusters(t, i);
      RemoveChainFrame(t[i := s], next);
      if j >= next {
        RemoveChainFills(t[i := s], next, j);
      }
    }
  }

  // ---------- removal undoes insertion ----------

  /** A chain never looks below the slot where it starts. */
  lemma {:induction false} InsertChainIgnoresBelow(t: Table, u: Table, s: Slot, i: nat, k: nat)
    requires Clustered(t) && Fits(t, s, i) && Clustered(u) && Fits(u, s, i)
    requires k < i && k < |u| && t == u[k := t[k]]
    ensures InsertChain(t, s, i).0 == InsertChain(u, s, i).0[k := t[k]]
    ensures InsertChain(t, s, i).1 == InsertChain(u, s, i).1
    decreases |t| - i
  {
    if i < |t| && t[i].Used? {
      DisplacedFits(t, s, i);
      DisplacedFits(u, s, i);
      EndOfRunAgrees(t, u, Bucket(t, i), i);
      InsertChainIgnoresBelow(t[i := s], u[i := s], Displaced(t, i), EndOfRun(t, Bucket(t, i), i), k);
    }
  }

  lemma {:induction false} EndOfRunAgrees(t: Table, u: Table, bucket: int, i: nat)
    requires |t| == |u| && i <= |t| && forall j :: i <= j < |t| ==> t[j] == u[j]
    ensures EndOfRun(t, bucket, i) == EndOfRun(u, bucket, i)
    decreases |t| - i
  {
    if i < |t| && t[i].Used? && Bucket(t, i) == bucket {
      EndOfRunAgrees(t, u, bucket, i + 1);
    }
  }

  lemma {:induction false} EndOfRunIs(t: Table, bucket: int, i: nat, end: nat)
    requires i <= end <= |t| && forall j :: i <= j < end ==> t[j].Used? && Bucket(t, j) == bucket
    requires end < |t| && t[end].Used? ==> Bucket(t, end) != bucket
    ensures EndOfRun(t, bucket, i) == end
    decreases end - i
  {
    if i < end {
      EndOfRunIs(t, bucket, i + 1, end);
    }
  }

  /** What follows a freshly inserted entry has a larger bucket. */
  lemma AfterInserted(t: Table, s: Slot, i: nat)
    requires Clustered(t) && Fits(t, s, i)
    ensures var r := InsertChain(t, s, i).0;
            i + 1 < |r| && r[i + 1].Used? ==> Bucket(r, i + 1) > i - s.distance
  {
    if i < |t| {
      var r := InsertChain(t, s, i).0;
      InsertChainFrame(t, s, i);
      if t[i].Empty? {
        assert i + 1 < |t| ==> LinkedAt(t, i + 1);
      } else {
        DisplacedFits(t, s, i);
        InsertChainFrame(t[i := s], Displaced(t, i), EndOfRun(t, Bucket(t, i), i));
      }
    }
  }

  /** The first pull after an insertion over an occupied slot brings that slot's entry back. */
  lemma PullReturnsDisplaced(t: Table, s: Slot, i: nat)
    requires Clustered(t) && Fits(t, s, i) && i < |t| && t[i].Used?
    ensures var r := InsertChain(t, s, i).0;
            && r[i].Used? && !NothingToPull(r, i)
            && TailOfRun(r, i + 1) == EndOfRun(t, Bucket(t, i), i) && Pulled(r, i) == t[i]
  {
    DisplacedFits(t, s, i);
    var r, b := InsertChain(t, s, i).0, Bucket(t, i);
    var u, d, next := t[i := s], Displaced(t, i), EndOfRun(t, b, i);
    InsertChainFrame(t, s, i);
    InsertChainFrame(u, d, next);
    AfterInserted(u, d, next);
    assert r == InsertChain(u, d, next).0;
    assert forall j :: i + 1 <= j < next ==> r[j] == u[j] == t[j];
    EndOfRunIs(r, b, i + 1, next + 1);
  }

  lemma DisplacedFitsBack(t: Table, i: nat)
    requires Clustered(t) && i < |t| && t[i].Used?
    ensures Fits(t, Displaced(t, i), EndOfRun(t, Bucket(t, i), i))
  {
    var next := EndOfRun(t, Bucket(t, i), i);
    assert t[next - 1].Used? && Bucket(t, next - 1) == Bucket(t, i);
    if next < |t| && t[next].Used? {
      assert LinkedAt(t, next);
    }
  }

  /** Removing what was just inserted pulls the whole displacement chain back. */
  lemma {:induction false} InsertThenRemove(t: Table, s: Slot, i: nat)
    requires Clustered(t) && Fits(t, s, i)
    ensures var (r, last) := InsertChain(t, s, i);
            r[i].Used? && RemoveChain(r, i).0 == if last == |t| then t + [Empty] else t
    decreases |t| - i
  {
    InsertChainFrame(t, s, i);
    if i < |t| && t[i].Used? {
      DisplacedFits(t, s, i);
      DisplacedFitsBack(t, i);
      var u, d, next := t[i := s], Displaced(t, i), EndOfRun(t, Bucket(t, i), i);
      var r := InsertChain(t, s, i).0;
      PullReturnsDisplaced(t, s, i);
      PulledKeepsClusters(r, i);
      InsertChainIgnoresBelow(t, u, d, next, i);
      InsertThenRemove(t, d, next);
      assert RemoveChain(r, i) == RemoveChain(r[i := t[i]], next);
    } else if i + 1 < |t| {
      assert LinkedAt(t, i + 1);
    }
  }

  // ---------- entries placed for the current size ----------

  /** The slot at `i` is empty or holds an entry in its bucket for `2^log2` buckets. */
  predicate IsCurrent(s: Slot, i: nat, log2: nat) {
    s.Used? ==> i - s.distance == KeyBucket(s.entry.key, log2)
  }

  predicate CurrentFrom(t: Table, log2: nat, low: int) {
    forall i :: 0 <= i < |t| && low <= i ==> IsCurrent(t[i], i, log2)
  }

  /** Pulling entries forward never brings an entry of an earlier size past `low`. */
  lemma {:induction false} RemoveChainCurrent(t: Table, i: nat, log2: nat, low: int)
    requires Clustered(t) && i < |t| && t[i].Used?
    requires CurrentFrom(t, log2, low)
    ensures CurrentFrom(RemoveChain(t, i).0, log2, low)
    ensures low == i + 1 ==> CurrentFrom(RemoveChain(t, i).0, log2, i)
    decreases |t| - i
  {
    if !NothingToPull(t, i) {
      var s, next := Pulled(t, i), TailOfRun(t, i + 1);
      PulledKeepsClusters(t, i);
      assert low <= i + 1 ==> IsCurrent(t[next], next, log2);
      var low' := if low == i + 1 then i else low;
      assert CurrentFrom(t[i := s], log2, low');
      RemoveChainCurrent(t[i := s], next, log2, low');
    }
  }

  /** The slot the chain carries when it first writes above `limit`; `Empty` when it never does. */
  function Carried(t: Table, s: Slot, i: nat, limit: int): (r: (Slot, nat))
    requires Clustered(t) && Fits(t, s, i)
    decreases |t| - i
  {
    if i > limit then (s, i)
    else if i == |t| || t[i].Empty? then (Empty, i)
    else
      DisplacedFits(t, s, i);
      Carried(t[i := s], Displaced(t, i), EndOfRun(t, Bucket(t, i), i), limit)
  }

  /** Exactly when an insertion keeps everything above `limit` current. */
  lemma {:induction false} InsertChainCurrentIff(t: Table, s: Slot, i: nat, log2: nat, limit: int)
    requires Clustered(t) && Fits(t, s, i)
    requires CurrentFrom(t, log2, limit + 1)
    ensures var c := Carried(t, s, i, limit);
            CurrentFrom(InsertChain(t, s, i).0, log2, limit + 1) <==> IsCurrent(c.0, c.1, log2)
    decreases |t| - i
  {
    var r := InsertChain(t, s, i).0;
    InsertChainFrame(t, s, i);
    if i == |t| || t[i].Empty? {
    } else {
      DisplacedFits(t, s, i);
      var u, d, next := t[i := s], Displaced(t, i), EndOfRun(t, Bucket(t, i), i);
      if i <= limit {
        assert CurrentFrom(u, log2, limit + 1);
        InsertChainCurrentIff(u, d, next, log2, limit);
      } else if IsCurrent(s, i, log2) {
        assert IsCurrent(t[i], i, log2);
        assert CurrentFrom(u, log2, limit + 1);
        InsertChainCurrentIff(u, d, next, log2, limit);
      }
    }
  }

  /** A chain that starts with a current entry among current entries carries only current ones. */
  lemma {:induction false} CarriedIsCurrent(t: Table, s: Slot, i: nat, log2: nat, limit: int)
    requires Clustered(t) && Fits(t, s, i)
    requires IsCurrent(s, i, log2) && CurrentFrom(t, log2, i)
    ensures var c := Carried(t, s, i, limit); IsCurrent(c.0, c.1, log2)
    decreases |t| - i
  {
    if i <= limit && i < |t| && t[i].Used? {
      DisplacedFits(t, s, i);
      var u, d, next := t[i := s], Displaced(t, i), EndOfRun(t, Bucket(t, i), i);
      assert IsCurrent(t[i], i, log2);
      assert CurrentFrom(u, log2, next);
      CarriedIsCurrent(u, d, next, log2, limit);
    }
  }

  /** A chain whose last write is at or below `limit` carries nothing past it. */
  lemma {:induction false} NothingCarried(t: Table, s: Slot, i: nat, limit: int)
    requires Clustered(t) && Fits(t, s, i)
    requires InsertChain(t, s, i).1 <= limit
    ensures Carried(t, s, i, limit).0 == Empty
    decreases |t| - i
  {
    if i < |t| && t[i].Used? {
      DisplacedFits(t, s, i);
      NothingCarried(t[i := s], Displaced(t, i), EndOfRun(t, Bucket(t, i), i), limit);
    }
  }

  // ---------- where a new entry goes ----------

  /** The end of a bucket's cluster accepts an entry of that bucket. */
  lemma EndOfClusterFits(t: Table, entry: Entry, bucket: nat)
    requires Clustered(t) && bucket <= |t|
    ensures var i := EndOfCluster(t, bucket, bucket); Fits(t, Used(entry, i - bucket), i)
  {
    var i := EndOfCluster(t, bucket, bucket);
    if i > bucket {
      assert t[i - 1].Used?;
    }
  }
}
