/**
 Steps of the dictionary that displace nothing: the entry goes into an empty slot at the end of its
 bucket's cluster, or behind the last slot. Long runs are followed through these.
 */
module DictGaps {
  import opened DictTable
  import opened DictChains
  import opened DictResize
  import opened DictSearch
  import opened DictMap
  import opened DictRuns

  lemma {:induction false} EndOfClusterIs(t: Table, bucket: int, i: nat, end: nat)
    requires i <= end <= |t| && forall j :: i <= j < end ==> t[j].Used? && Bucket(t, j) <= bucket
    requires end < |t| && t[end].Used? ==> Bucket(t, end) > bucket
    ensures EndOfCluster(t, bucket, i) == end
    decreases end - i
  {
    if i < end {
      EndOfClusterIs(t, bucket, i + 1, end);
    }
  }

  /** The cluster of `bucket` fills the slots up to `i`, and `i` is empty or past the end. */
  predicate Gap(t: Table, bucket: nat, i: nat) {
    && bucket <= i <= |t| && (i < |t| ==> t[i].Empty?)
    && forall j :: bucket <= j < i ==> t[j].Used? && Bucket(t, j) <= bucket
  }

  predicate GapFor(t: Table, key: Key, log2: nat, i: nat) {
    |t| == Capacity(log2) && Gap(t, KeyBucket(key, log2), i)
  }

  lemma GapIsInsertionPoint(t: Table, key: Key, log2: nat, i: nat)
    requires GapFor(t, key, log2, i)
    ensures InsertionPoint(t, key, log2) == i
  {
    EndOfClusterIs(t, KeyBucket(key, log2), KeyBucket(key, log2), i);
  }

  // ---------- moves ----------

  /** The table after the entry at `p` moved into the gap at `i`. */
  function Moved(t: Table, p: nat, log2: nat, i: nat): Table
    requires p < |t| && t[p].Used? && i < |t| && KeyBucket(t[p].entry.key, log2) <= i
  {
    t[p := Empty][i := SlotFor(t[p].entry, log2, i)]
  }

  /** Nothing follows the stale entry at `p`, and the gap at `i` is for it. */
  predicate GapAfter(t: Table, log2: nat, p: nat, i: nat) {
    && p < |t| && t[p].Used? && NothingToPull(t, p) && !IsCurrent(t[p], p, log2)
    && i < |t| && GapFor(t[p := Empty], t[p].entry.key, log2, i)
  }

  lemma RemapIntoGap(d: Dict, p: nat, i: nat)
    requires Shape(d) && GapAfter(d.table, d.log2, p, i)
    ensures RemapAt(d, p) == (d.(table := Moved(d.table, p, d.log2, i)), true, i)
  {
    GapIsInsertionPoint(d.table[p := Empty], d.table[p].entry.key, d.log2, i);
  }

  /** A turn of the bulk pass that moves an entry into a gap. */
  lemma MoveIntoGap(d: Dict, left: nat, i: nat)
    requires Shape(d) && d.remapEnd >= 0 && left > 0 && GapAfter(d.table, d.log2, d.remapEnd, i)
    ensures var e := d.(table := Moved(d.table, d.remapEnd, d.log2, i));
            Shape(e) && BulkRemap(d, left).0 == BulkRemap(e, left - 1).0
  {
    RemapIntoGap(d, d.remapEnd, i);
  }

  /** Turns of the bulk pass that move nothing. */
  lemma {:induction false} SkipDown(d: Dict, left: nat, q: int)
    requires Shape(d) && left > 0 && -1 <= q <= d.remapEnd
    requires forall p :: q < p <= d.remapEnd ==> IsCurrent(d.table[p], p, d.log2)
    ensures var e := d.(remapEnd := q); Shape(e) && BulkRemap(d, left) == BulkRemap(e, left)
    decreases d.remapEnd
  {
    if q < d.remapEnd {
      assert IsCurrent(d.table[d.remapEnd], d.remapEnd, d.log2);
      var e := d.(remapEnd := d.remapEnd - 1);
      assert BulkStep(d) == e;
      SkipDown(e, left, q);
    }
  }

  /** The pass steps down from `d` to `q`, moves the entry there into the gap at `i`, and is at `e`. */
  predicate TurnsInto(d: Dict, q: nat, i: nat, e: Dict) {
    && q <= d.remapEnd < |d.table|
    && (forall p :: q < p <= d.remapEnd ==> IsCurrent(d.table[p], p, d.log2))
    && GapAfter(d.table, d.log2, q, i)
    && e == d.(remapEnd := q, table := Moved(d.table, q, d.log2, i))
  }

  lemma TurnInto(d: Dict, left: nat, q: nat, i: nat, e: Dict)
    requires Shape(d) && left > 0 && TurnsInto(d, q, i, e)
    ensures Shape(e) && BulkRemap(d, left).0 == BulkRemap(e, left - 1).0
  {
    SkipDown(d, left, q);
    MoveIntoGap(d.(remapEnd := q), left, i);
  }

  /** A stretch of a pass: where it takes entries from, and where it puts them. */
  datatype Stretch = Stretch(states: seq<Dict>, from: seq<nat>, to: seq<nat>)

  predicate Passing(s: Stretch) {
    && |s.states| == |s.from| + 1 == |s.to| + 1
    && forall j :: 0 <= j < |s.from| ==> PassesOn(s, j)
  }

  predicate PassesOn(s: Stretch, j: nat)
    requires j < |s.from| && |s.states| == |s.from| + 1 == |s.to| + 1
  {
    TurnsInto(s.states[j], s.from[j], s.to[j], s.states[j + 1])
  }

  lemma PassesOnIf(s: Stretch, j: nat, d: Dict, q: nat, i: nat, e: Dict)
    requires j < |s.from| && |s.states| == |s.from| + 1 == |s.to| + 1
    requires s.states[j] == d && s.from[j] == q && s.to[j] == i && s.states[j + 1] == e && TurnsInto(d, q, i, e)
    ensures PassesOn(s, j)
  {
  }

  /** Where the pass is after `left` moves from `d`, for one that comes to `e`. */
  predicate LeadsTo(d: Dict, left: nat, e: Dict, rest: nat) {
    Shape(d) && Shape(e) && BulkRemap(d, left).0 == BulkRemap(e, rest).0
  }

  lemma OneMore(d: Dict, left: nat, e: Dict, f: Dict, rest: nat, q: nat, i: nat)
    requires LeadsTo(d, left, e, rest + 1) && TurnsInto(e, q, i, f)
    ensures LeadsTo(d, left, f, rest)
  {
    TurnInto(e, rest + 1, q, i, f);
  }

  lemma {:induction false} PassThrough(s: Stretch, n: nat, left: nat)
    requires Passing(s) && n <= |s.from| && n <= left && Shape(s.states[0])
    ensures LeadsTo(s.states[0], left, s.states[n], left - n)
  {
    if n > 0 {
      PassThrough(s, n - 1, left);
      var q, i := PassesOnTo(s, n - 1, s.states[n - 1], s.states[n]);
      OneMore(s.states[0], left, s.states[n - 1], s.states[n], left - n, q, i);
    }
  }

  lemma PassesOnTo(s: Stretch, j: nat, d: Dict, e: Dict) returns (q: nat, i: nat)
    requires Passing(s) && j < |s.from| && s.states[j] == d && s.states[j + 1] == e
    ensures TurnsInto(d, q, i, e)
  {
    assert PassesOn(s, j);
    q, i := s.from[j], s.to[j];
  }

  /** The entry behind `p` is alone in following: taking `p` out pulls it down one slot. */
  predicate PullsOne(t: Table, p: nat) {
    && p + 2 < |t| && t[p].Used? && t[p + 1].Used? && t[p + 1].distance > 0 && t[p + 2].Empty?
  }

  function PulledDown(t: Table, p: nat): Table
    requires PullsOne(t, p)
  {
    t[p := t[p + 1].(distance := t[p + 1].distance - 1)][p + 1 := Empty]
  }

  lemma RemovePullsOne(t: Table, p: nat)
    requires Clustered(t) && PullsOne(t, p)
    ensures RemoveChain(t, p).0 == PulledDown(t, p)
  {
    EndOfRunIs(t, Bucket(t, p + 1), p + 1, p + 2);
    PulledKeepsClusters(t, p);
  }

  /** A last turn of the pass that pulls one entry down behind the one it moves into a gap. */
  lemma PullAndMove(d: Dict, i: nat, e: Dict)
    requires Shape(d) && d.remapEnd >= 0 && PullsOne(d.table, d.remapEnd)
    requires !IsCurrent(d.table[d.remapEnd], d.remapEnd, d.log2)
    requires i < |d.table| && GapFor(PulledDown(d.table, d.remapEnd), d.table[d.remapEnd].entry.key, d.log2, i)
    requires e == d.(table := PulledDown(d.table, d.remapEnd)[i := SlotFor(d.table[d.remapEnd].entry, d.log2, i)])
    ensures BulkRemap(d, 1).0 == e
  {
    RemovePullsOne(d.table, d.remapEnd);
    GapIsInsertionPoint(PulledDown(d.table, d.remapEnd), d.table[d.remapEnd].entry.key, d.log2, i);
  }

  /** A lookup of a stale entry is one move. */
  lemma LookupMoves(d: Dict, m: map<Key, Pointer>, key: Key, p: nat)
    requires ResizeInv(d) && Represents(d.table, m) && d.numIterators == 0
    requires KeyAt(d.table, p, key) && !IsCurrent(d.table[p], p, d.log2)
    ensures LookupIndex(d, key) == (RemapAt(d, p).0, Hit(RemapAt(d, p).2))
    ensures Find(d, key) == Hit(p)
  {
    FindIsComplete(d, key, p);
    UniquePosition(d.table, m, key, p, Find(d, key).position);
    if SearchCurrent(d, key).Hit? {
      CurrentHitIsCurrent(d, key);
    }
  }

  lemma LookupIntoGap(d: Dict, m: map<Key, Pointer>, key: Key, p: nat, i: nat, e: Dict)
    requires Stands(d, m) && d.table != [] && d.remaps <= 1 && d.numIterators == 0
    requires KeyAt(d.table, p, key) && GapAfter(d.table, d.log2, p, i)
    requires e == d.(table := Moved(d.table, p, d.log2, i))
    ensures Lookup(d, key).0 == e && Stands(e, m)
  {
    LookupMoves(d, m, key, p);
    RemapIntoGap(d, p, i);
    OneResizeIsSafe(d, key);
    LookupIsMapGet(d, m, key);
  }

  /** A run up to `next` gives way: its first entry goes behind it. */
  lemma DisplaceOver(t: Table, s: Slot, i: nat, next: nat)
    requires Clustered(t) && Fits(t, s, i) && i < next < |t| && t[i].Used? && t[next].Empty?
    requires forall j :: i <= j < next ==> t[j].Used? && Bucket(t, j) == Bucket(t, i)
    ensures InsertChain(t, s, i) == (t[i := s][next := t[i].(distance := t[i].distance + (next - i))], next)
  {
    EndOfRunIs(t, Bucket(t, i), i, next);
    DisplacedFits(t, s, i);
  }

  // ---------- insertions ----------

  lemma NewKeyMisses(d: Dict, m: map<Key, Pointer>, key: Key)
    requires ResizeInv(d) && Represents(d.table, m) && key !in m
    ensures LookupIndex(d, key) == (d, Miss(InsertionPoint(d.table, key, d.log2))) && LookupSafe(d, key)
  {
    FindIsLinearSearch(d, m, key);
  }

  /** `e` is `d` with a new entry in a gap, no resize going on and below the threshold. */
  predicate FillsGap(d: Dict, entry: Entry, i: nat, e: Dict) {
    && d.table != [] && d.numIterators == 0 && d.remapEnd < 0 && d.numEntries < ThresholdEntries(d.log2)
    && i < |d.table| && GapFor(d.table, entry.key, d.log2, i)
    && e == Counted(d.(table := d.table[i := SlotFor(entry, d.log2, i)]))
  }

  lemma InsertIntoGap(d: Dict, m: map<Key, Pointer>, entry: Entry, i: nat, e: Dict)
    requires Stands(d, m) && entry.key !in m && FillsGap(d, entry, i, e)
    ensures Insert(d, entry.key, entry.value).0 == e && Stands(e, m[entry.key := entry.value])
  {
    NewKeyMisses(d, m, entry.key);
    InsertNewIntoGap(d, entry, i);
    InsertMissed(d, entry.key, entry.value);
    assert Safe(d, entry.key);
    InsertIsMapUpdate(d, m, entry.key, entry.value);
  }

  lemma InsertNewIntoGap(d: Dict, entry: Entry, i: nat)
    requires Shape(d) && d.remapEnd < 0 && d.numEntries < ThresholdEntries(d.log2)
    requires i < |d.table| && GapFor(d.table, entry.key, d.log2, i)
    ensures InsertNew(d, entry) == Counted(d.(table := d.table[i := SlotFor(entry, d.log2, i)]))
  {
    GapIsInsertionPoint(d.table, entry.key, d.log2, i);
    InsertionPointFits(d.table, entry, d.log2);
  }

  lemma InsertMissed(d: Dict, key: Key, value: Pointer)
    requires Shape(d) && d.numIterators == 0 && LookupIndex(d, key).0 == d && LookupIndex(d, key).1.Miss?
    ensures Insert(d, key, value).0 == RemapIfRemapping(InsertNew(d, Entry(key, value)))
  {
  }

  /** The doubled dictionary with a new entry behind the old last slot. */
  function Grown(d: Dict, entry: Entry): Dict
    requires |d.table| == Capacity(d.log2) && KeyBucket(entry.key, d.log2) <= |d.table|
  {
    var i := |d.table|;
    CapacityGrows(d.log2);
    d.(log2 := d.log2 + 1,
       table := (d.table + Empties(Capacity(d.log2 + 1) - i))[i := SlotFor(entry, d.log2, i)],
       remapEnd := i,
       remaps := d.remaps + 1)
  }

  lemma PlacedAtEnd(d: Dict, entry: Entry)
    requires Shape(d) && GapFor(d.table, entry.key, d.log2, |d.table|)
    ensures Shape(Grown(d, entry)) && Placed(d, entry) == Grown(d, entry)
  {
    var i := |d.table|;
    var s := SlotFor(entry, d.log2, i);
    GapIsInsertionPoint(d.table, entry.key, d.log2, i);
    InsertionPointFits(d.table, entry, d.log2);
    CapacityGrows(d.log2);
    var k := Capacity(d.log2 + 1) - i;
    assert InsertChain(d.table, s, i) == (d.table + [s], i);
    SlotBehind(d.table, s, k);
    assert |SizeUp(d).table| == i + k;
    assert Relocate(d, s, i) == (Grown(d, entry), i);
  }

  lemma SlotBehind(t: Table, s: Slot, k: nat)
    requires k > 0
    ensures (t + Empties(k))[|t| := s] == (t + [s]) + Empties(k - 1)
  {
  }

  lemma InsertNewAtEnd(d: Dict, entry: Entry)
    requires Shape(d) && GapFor(d.table, entry.key, d.log2, |d.table|) && d.numEntries < ThresholdEntries(d.log2)
    ensures Shape(Counted(Grown(d, entry))) && InsertNew(d, entry) == Counted(Grown(d, entry))
  {
    PlacedAtEnd(d, entry);
    OneSizeUpIsEnough(d.log2);
  }

  /** `g` is `d` doubled with a new entry behind the old last slot, below the threshold. */
  predicate GrowsInto(d: Dict, entry: Entry, g: Dict) {
    && d.table != [] && d.numIterators == 0 && d.numEntries < ThresholdEntries(d.log2)
    && GapFor(d.table, entry.key, d.log2, |d.table|)
    && g == Counted(Grown(d, entry))
  }

  /** Inserting a new key behind the last slot doubles the table and starts a pass. */
  lemma InsertAtEnd(d: Dict, m: map<Key, Pointer>, entry: Entry, g: Dict)
    requires Stands(d, m) && entry.key !in m && GrowsInto(d, entry, g)
    ensures Shape(g) && Insert(d, entry.key, entry.value).0 == BulkRemap(g, REMAP_ENTRIES).0
    ensures Stands(Insert(d, entry.key, entry.value).0, m[entry.key := entry.value])
  {
    NewKeyMisses(d, m, entry.key);
    InsertNewAtEnd(d, entry);
    InsertMissed(d, entry.key, entry.value);
    assert Safe(d, entry.key);
    InsertIsMapUpdate(d, m, entry.key, entry.value);
  }

  lemma GrownShape(d: Dict, entry: Entry, g: Dict)
    requires Shape(d) && GrowsInto(d, entry, g)
    ensures Shape(g)
  {
    InsertNewAtEnd(d, entry);
  }

  /** The same, with what sixteen moves of the pass lead to named. */
  lemma InsertAndPass(d: Dict, m: map<Key, Pointer>, entry: Entry, g: Dict, e: Dict)
    requires Stands(d, m) && entry.key !in m && GrowsInto(d, entry, g)
    requires LeadsTo(g, REMAP_ENTRIES, e, 0) && e.remapEnd >= 0
    ensures Leads(d, DoInsert(entry.key, entry.value), e) && Stands(e, m[entry.key := entry.value])
  {
    InsertAtEnd(d, m, entry, g);
    StepIs(d, entry.key, entry.value);
  }
}
