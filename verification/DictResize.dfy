/**
 Incremental resizing: the dictionary's fields as a value, the steps that grow the table and
 move entries to their bucket for the current size, and the invariant all of them keep.
 */
module DictResize {
  import opened DictTable
  import opened DictChains

  /** The fields of `Dictionary`; an empty `table` is the null table. */
  datatype Dict = Dict(
    log2: nat,
    table: Table,
    remaps: nat,
    remapEnd: int,
    numEntries: int,
    maxEntries: int,
    cumEntries: nat,
    numIterators: nat)

  const REMAP_ENTRIES: nat := 16

  /** What every operation keeps on every table, whatever its entries' hashes are. */
  predicate Shape(d: Dict) {
    && |d.table| == Capacity(d.log2)
    && Clustered(d.table)
    && d.remaps <= d.log2
    && -1 <= d.remapEnd < |d.table|
  }

  /** Moving entries around leaves the counters alone, and the table never shrinks. */
  predicate SameCounters(d: Dict, e: Dict) {
    && e.numEntries == d.numEntries && e.maxEntries == d.maxEntries
    && e.cumEntries == d.cumEntries && e.numIterators == d.numIterators
    && e.log2 >= d.log2
  }

  /** The home is the key's bucket for one of the last `remaps + 1` sizes. */
  predicate PlacedWithin(h: Home, log2: nat, remaps: nat) {
    || h.bucket == KeyBucket(h.entry.key, log2)
    || (remaps > 0 && log2 > 0 && PlacedWithin(h, log2 - 1, remaps - 1))
  }

  predicate AllPlaced(t: Table, log2: nat, remaps: nat) {
    forall i :: 0 <= i < |t| && t[i].Used? ==> PlacedWithin(HomeOf(t, i), log2, remaps)
  }

  /**
   The incremental-resize invariant: above `remapEnd` every entry is in its bucket for the current
   size, at or below it in its bucket for one of the last `remaps + 1` sizes.
   */
  ghost predicate ResizeInv(d: Dict) {
    && Shape(d)
    && AllPlaced(d.table, d.log2, d.remaps)
    && CurrentFrom(d.table, d.log2, d.remapEnd + 1)
  }

  // ---------- growing ----------

  function SizeUp(d: Dict): (r: Dict)
    requires Shape(d)
    ensures Shape(r) && SameCounters(d, r)
  {
    CapacityGrows(d.log2);
    PaddingKeepsClusters(d.table, Capacity(d.log2 + 1) - Capacity(d.log2));
    d.(log2 := d.log2 + 1,
       table := d.table + Empties(Capacity(d.log2 + 1) - Capacity(d.log2)),
       remapEnd := |d.table|,
       remaps := d.remaps + 1)
  }

  lemma CapacityGrows(log2: nat)
    ensures Capacity(log2 + 1) >= Capacity(log2) + 2
  {
  }

  lemma PaddingKeepsClusters(t: Table, k: nat)
    requires Clustered(t)
    ensures Clustered(t + Empties(k))
  {
    var u := t + Empties(k);
    forall j | 0 <= j < |u| ensures LinkedAt(u, j) {
      assert j < |t| ==> LinkedAt(t, j);
    }
  }

  /** One more outstanding size makes room for the entries of all the earlier ones. */
  lemma SizeUpKeepsInv(d: Dict)
    requires Shape(d) && AllPlaced(d.table, d.log2, d.remaps)
    ensures ResizeInv(SizeUp(d)) && Homes(SizeUp(d).table) == Homes(d.table)
  {
    var g := SizeUp(d);
    HomesPad(d.table, |g.table| - |d.table|);
    PaddingPlaced(d.table, |g.table| - |d.table|, d.log2, d.remaps);
  }

  lemma PaddingPlaced(t: Table, k: nat, log2: nat, remaps: nat)
    requires AllPlaced(t, log2, remaps)
    ensures AllPlaced(t + Empties(k), log2 + 1, remaps + 1)
  {
    var u := t + Empties(k);
    forall i | 0 <= i < |u| && u[i].Used? ensures PlacedWithin(HomeOf(u, i), log2 + 1, remaps + 1) {
      assert HomeOf(u, i) == HomeOf(t, i);
      assert PlacedWithin(HomeOf(u, i), log2, remaps);
    }
  }

  // ---------- inserting and removing a slot ----------

  /** `InsertAndRelocate` on the whole dictionary, growing when the chain runs off the end. */
  function Relocate(d: Dict, s: Slot, i: nat): (r: (Dict, nat))
    requires Shape(d) && Fits(d.table, s, i)
    ensures Shape(r.0) && SameCounters(d, r.0)
    ensures i <= r.1 <= |d.table| && r.1 < |r.0.table|
  {
    var (t, last) := InsertChain(d.table, s, i);
    if last < |d.table| then
      (d.(table := t), last)
    else
      var g := SizeUp(d);
      PaddingKeepsClusters(t, |g.table| - |t|);
      (g.(table := t + Empties(|g.table| - |t|)), last)
  }

  /** `InsertRelocateAndAdjust`: `remapEnd` follows an entry pushed past it. */
  function RelocateAndAdjust(d: Dict, s: Slot, i: nat): (r: Dict)
    requires Shape(d) && Fits(d.table, s, i)
    ensures Shape(r) && SameCounters(d, r)
  {
    var (g, last) := Relocate(d, s, i);
    if 0 <= g.remapEnd && i <= g.remapEnd < last then g.(remapEnd := last) else g
  }

  lemma RelocateHomes(d: Dict, s: Slot, i: nat)
    requires Shape(d) && Fits(d.table, s, i)
    ensures Homes(Relocate(d, s, i).0.table) == Homes(d.table) + HomeAt(s, i)
  {
    var t := InsertChain(d.table, s, i).0;
    InsertChainHomes(d.table, s, i);
    var r := Relocate(d, s, i).0.table;
    if r != t {
      var k := |r| - |t|;
      assert r == t + Empties(k);
      HomesPad(t, k);
    }
  }

  lemma RelocateWrites(d: Dict, s: Slot, i: nat)
    requires Shape(d) && Fits(d.table, s, i)
    ensures Relocate(d, s, i).0.table[i] == s
  {
    InsertChainFrame(d.table, s, i);
  }

  lemma InsertChainPlaced(t: Table, s: Slot, i: nat, log2: nat, remaps: nat)
    requires Clustered(t) && Fits(t, s, i) && AllPlaced(t, log2, remaps) && IsCurrent(s, i, log2)
    ensures AllPlaced(InsertChain(t, s, i).0, log2, remaps)
  {
    var r := InsertChain(t, s, i).0;
    forall j | 0 <= j < |r| && r[j].Used? ensures PlacedWithin(HomeOf(r, j), log2, remaps) {
      HomeOfSlot(r, j);
      InsertChainHomes(t, s, i);
      SumMultiplicity(Homes(t), HomeAt(s, i), HomeOf(r, j));
      if HomeOf(r, j) in Homes(t) {
        var k := SlotOfHome(t, HomeOf(r, j));
        assert HomeOf(t, k) == HomeOf(r, j);
      }
    }
  }

  lemma RelocatePlaced(d: Dict, s: Slot, i: nat)
    requires Shape(d) && Fits(d.table, s, i)
    requires AllPlaced(d.table, d.log2, d.remaps) && IsCurrent(s, i, d.log2)
    ensures var r := Relocate(d, s, i).0; AllPlaced(r.table, r.log2, r.remaps)
  {
    var (t, last) := InsertChain(d.table, s, i);
    InsertChainPlaced(d.table, s, i, d.log2, d.remaps);
    if last == |d.table| {
      PaddingPlaced(t, |SizeUp(d).table| - |t|, d.log2, d.remaps);
    }
  }

  /** Inserting a current entry never breaks the invariant once `remapEnd` is adjusted. */
  lemma RelocateAndAdjustKeepsInv(d: Dict, s: Slot, i: nat)
    requires ResizeInv(d) && Fits(d.table, s, i) && IsCurrent(s, i, d.log2)
    ensures ResizeInv(RelocateAndAdjust(d, s, i))
  {
    RelocatePlaced(d, s, i);
    var (t, last) := InsertChain(d.table, s, i);
    if last < |d.table| {
      if i <= d.remapEnd < last {
        InsertChainFrame(d.table, s, i);
        assert CurrentFrom(t, d.log2, last + 1);
      } else {
        if last <= d.remapEnd {
          NothingCarried(d.table, s, i, d.remapEnd);
        }
        InsertChainCurrentIff(d.table, s, i, d.log2, d.remapEnd);
      }
    }
  }

  /** Without the adjustment the invariant survives unless an earlier-size entry is carried past it. */
  predicate NoStaleCrossing(d: Dict, s: Slot, i: nat)
    requires Shape(d) && Fits(d.table, s, i)
  {
    || InsertChain(d.table, s, i).1 == |d.table|
    || var c := Carried(d.table, s, i, d.remapEnd); IsCurrent(c.0, c.1, d.log2)
  }

  lemma RelocateKeepsInvIff(d: Dict, s: Slot, i: nat)
    requires ResizeInv(d) && Fits(d.table, s, i) && IsCurrent(s, i, d.log2)
    ensures ResizeInv(Relocate(d, s, i).0) <==> NoStaleCrossing(d, s, i)
  {
    RelocatePlaced(d, s, i);
    InsertChainCurrentIff(d.table, s, i, d.log2, d.remapEnd);
  }

  function RemoveAt(d: Dict, p: nat): (r: Dict)
    requires Shape(d) && p < |d.table| && d.table[p].Used?
    ensures Shape(r) && SameCounters(d, r)
  {
    d.(table := RemoveChain(d.table, p).0)
  }

  lemma RemoveAtPlaced(d: Dict, p: nat)
    requires Shape(d) && AllPlaced(d.table, d.log2, d.remaps) && p < |d.table| && d.table[p].Used?
    ensures AllPlaced(RemoveAt(d, p).table, d.log2, d.remaps)
  {
    var t, r := d.table, RemoveAt(d, p).table;
    forall j | 0 <= j < |r| && r[j].Used? ensures PlacedWithin(HomeOf(r, j), d.log2, d.remaps) {
      HomeOfSlot(r, j);
      RemoveChainCount(t, p, HomeOf(r, j));
      var k := SlotOfHome(t, HomeOf(r, j));
    }
  }

  lemma RemoveAtKeepsInv(d: Dict, p: nat)
    requires ResizeInv(d) && p < |d.table| && d.table[p].Used?
    ensures ResizeInv(RemoveAt(d, p))
  {
    RemoveAtPlaced(d, p);
    RemoveChainCurrent(d.table, p, d.log2, d.remapEnd + 1);
  }

  // ---------- moving one entry to its current bucket ----------

  function InsertionPoint(t: Table, key: Key, log2: nat): (i: nat)
    requires |t| == Capacity(log2)
    ensures KeyBucket(key, log2) <= i <= |t|
  {
    EndOfCluster(t, KeyBucket(key, log2), KeyBucket(key, log2))
  }

  function SlotFor(entry: Entry, log2: nat, i: nat): Slot
    requires KeyBucket(entry.key, log2) <= i
  {
    Used(entry, i - KeyBucket(entry.key, log2))
  }

  lemma InsertionPointFits(t: Table, entry: Entry, log2: nat)
    requires Clustered(t) && |t| == Capacity(log2)
    ensures var i := InsertionPoint(t, entry.key, log2);
            Fits(t, SlotFor(entry, log2, i), i) && IsCurrent(SlotFor(entry, log2, i), i, log2)
  {
    EndOfClusterFits(t, entry, KeyBucket(entry.key, log2));
  }

  /** `Remap(position)`: the new state, whether the entry moved, and where it is now. */
  function RemapAt(d: Dict, p: nat): (r: (Dict, bool, nat))
    requires Shape(d) && p < |d.table| && d.table[p].Used?
    ensures Shape(r.0) && SameCounters(d, r.0)
    ensures r.2 < |r.0.table|
    ensures !r.1 ==> r.0 == d
  {
    if IsCurrent(d.table[p], p, d.log2) then (d, false, p)
    else
      var entry := d.table[p].entry;
      var e := RemoveAt(d, p);
      var i := InsertionPoint(e.table, entry.key, d.log2);
      InsertionPointFits(e.table, entry, d.log2);
      (Relocate(e, SlotFor(entry, d.log2, i), i).0, true, i)
  }

  /** The two halves of a move, named for the lemmas below. */
  function Lifted(d: Dict, p: nat): (r: (Dict, Slot, nat))
    requires Shape(d) && p < |d.table| && d.table[p].Used?
    ensures Shape(r.0) && Fits(r.0.table, r.1, r.2) && IsCurrent(r.1, r.2, d.log2)
    ensures r.0 == RemoveAt(d, p) && r.1.entry == d.table[p].entry
    ensures !IsCurrent(d.table[p], p, d.log2) ==> RemapAt(d, p) == (Relocate(r.0, r.1, r.2).0, true, r.2)
    ensures r.2 == InsertionPoint(r.0.table, d.table[p].entry.key, d.log2)
  {
    var entry := d.table[p].entry;
    var e := RemoveAt(d, p);
    var i := InsertionPoint(e.table, entry.key, d.log2);
    InsertionPointFits(e.table, entry, d.log2);
    (e, SlotFor(entry, d.log2, i), i)
  }

  function CurrentHome(entry: Entry, log2: nat): Home {
    Home(entry, KeyBucket(entry.key, log2))
  }

  lemma RelocateCount(d: Dict, s: Slot, i: nat, h: Home)
    requires Shape(d) && Fits(d.table, s, i)
    ensures Homes(Relocate(d, s, i).0.table)[h] == Homes(d.table)[h] + Has(s, i, h)
  {
    RelocateHomes(d, s, i);
    SumMultiplicity(Homes(d.table), HomeAt(s, i), h);
    HasIsMultiplicity(s, i, h);
  }

  lemma RemapAtCount(d: Dict, p: nat, h: Home)
    requires Shape(d) && p < |d.table| && d.table[p].Used? && !IsCurrent(d.table[p], p, d.log2)
    ensures Homes(RemapAt(d, p).0.table)[h] + Has(d.table[p], p, h)
         == Homes(d.table)[h] + (if h == CurrentHome(d.table[p].entry, d.log2) then 1 else 0)
  {
    var (e, s, i) := Lifted(d, p);
    RelocateCount(e, s, i, h);
    RemoveChainCount(d.table, p, h);
  }

  /** A move changes one home, from a stale bucket to the bucket for the size it started with. */
  lemma RemapAtHomes(d: Dict, p: nat)
    requires Shape(d) && p < |d.table| && d.table[p].Used? && !IsCurrent(d.table[p], p, d.log2)
    ensures Homes(RemapAt(d, p).0.table) + HomeAt(d.table[p], p)
         == Homes(d.table) + multiset{CurrentHome(d.table[p].entry, d.log2)}
  {
    var q := CurrentHome(d.table[p].entry, d.log2);
    forall h ensures Homes(RemapAt(d, p).0.table)[h] + HomeAt(d.table[p], p)[h] == Homes(d.table)[h] + multiset{q}[h] {
      RemapAtCount(d, p, h);
      HasIsMultiplicity(d.table[p], p, h);
    }
    PointwiseSums(Homes(RemapAt(d, p).0.table), HomeAt(d.table[p], p), Homes(d.table), multiset{q});
  }

  /** The moved entry is found at the position the move reports. */
  lemma RemapAtPosition(d: Dict, p: nat)
    requires Shape(d) && p < |d.table| && d.table[p].Used?
    ensures var r := RemapAt(d, p); r.0.table[r.2].Used? && r.0.table[r.2].entry == d.table[p].entry
  {
    if !IsCurrent(d.table[p], p, d.log2) {
      var (e, s, i) := Lifted(d, p);
      RelocateWrites(e, s, i);
    }
  }

  lemma {:induction false} EarlierBucketBelow(h: Home, log2: nat, remaps: nat)
    requires PlacedWithin(h, log2, remaps)
    ensures h.bucket <= KeyBucket(h.entry.key, log2)
  {
    if h.bucket != KeyBucket(h.entry.key, log2) {
      EarlierBucketBelow(h, log2 - 1, remaps - 1);
      BucketDoubles(h.entry.key, log2 - 1);
    }
  }

  /**
   Moving the entry at `remapEnd` itself, as the bulk pass does: its new place is at or above
   `remapEnd`, so only current entries are displaced, whatever the number of outstanding sizes.
   */
  lemma BulkMoveKeepsInv(d: Dict)
    requires ResizeInv(d) && d.remapEnd >= 0 && d.table[d.remapEnd].Used?
    ensures ResizeInv(RemapAt(d, d.remapEnd).0)
  {
    var p := d.remapEnd;
    if !IsCurrent(d.table[p], p, d.log2) {
      var (e, s, i) := Lifted(d, p);
      RemoveAtKeepsInv(d, p);
      RemoveChainCurrent(d.table, p, d.log2, p + 1);
      EarlierBucketBelow(HomeOf(d.table, p), d.log2, d.remaps);
      if i < p {
        RemoveChainFrame(d.table, p);
        NoHole(d.table, i, p);
        assert false;
      }
      CarriedIsCurrent(e.table, s, i, d.log2, d.remapEnd);
      RelocateKeepsInvIff(e, s, i);
    }
  }

  // ---------- the bulk pass ----------

  predicate NeedsMove(d: Dict)
    requires Shape(d) && d.remapEnd >= 0
  {
    d.table[d.remapEnd].Used? && !IsCurrent(d.table[d.remapEnd], d.remapEnd, d.log2)
  }

  /** One turn of the loop in `Remap()`: move the entry at `remapEnd`, or step below it. */
  function BulkStep(d: Dict): (r: Dict)
    requires Shape(d) && d.remapEnd >= 0
    ensures Shape(r) && SameCounters(d, r)
    ensures !NeedsMove(d) ==> r == d.(remapEnd := d.remapEnd - 1)
  {
    if NeedsMove(d) then RemapAt(d, d.remapEnd).0 else d.(remapEnd := d.remapEnd - 1)
  }

  /** `Remap()` with `left` moves to go: the new state and the number of moves made. */
  function BulkRemap(d: Dict, left: nat): (r: (Dict, nat))
    requires Shape(d)
    ensures Shape(r.0) && SameCounters(d, r.0)
    ensures r.0.remapEnd < 0 || r.1 == left
    ensures r.1 <= left
    ensures r.0.remapEnd < 0 ==> r.0.remaps == 0
    decreases left, d.remapEnd + 1
  {
    if d.remapEnd >= 0 && left > 0 then
      var e := BulkStep(d);
      if NeedsMove(d) then
        var (f, moves) := BulkRemap(e, left - 1);
        (f, moves + 1)
      else
        BulkRemap(e, left)
    else
      (if d.remapEnd < 0 then d.(remaps := 0) else d, 0)
  }

  function Remap(d: Dict): (r: Dict)
    requires Shape(d)
    ensures Shape(r) && SameCounters(d, r)
  {
    if d.numIterators > 0 then d else BulkRemap(d, REMAP_ENTRIES).0
  }

  /** With nothing left to move, no earlier size is in use any more. */
  lemma NothingStale(d: Dict)
    requires ResizeInv(d) && d.remapEnd < 0
    ensures ResizeInv(d.(remaps := 0))
  {
    forall i | 0 <= i < |d.table| && d.table[i].Used? ensures PlacedWithin(HomeOf(d.table, i), d.log2, 0) {
      assert IsCurrent(d.table[i], i, d.log2);
    }
  }

  lemma BulkStepKeepsInv(d: Dict)
    requires ResizeInv(d) && d.remapEnd >= 0
    ensures ResizeInv(BulkStep(d))
  {
    if NeedsMove(d) {
      BulkMoveKeepsInv(d);
    }
  }

  /** The bulk pass keeps the invariant, also when a move grows the table. */
  lemma {:induction false} BulkRemapKeepsInv(d: Dict, left: nat)
    requires ResizeInv(d)
    ensures ResizeInv(BulkRemap(d, left).0)
    decreases left, d.remapEnd + 1
  {
    if d.remapEnd >= 0 && left > 0 {
      BulkStepKeepsInv(d);
      BulkRemapKeepsInv(BulkStep(d), if NeedsMove(d) then left - 1 else left);
    } else if d.remapEnd < 0 {
      NothingStale(d);
    }
  }
}
