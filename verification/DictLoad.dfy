/**
 When the table grows by its load only, the passes after the insertions keep up with it: a resize is
 always finished before the next one starts, so that every operation is safe.
 */
module DictLoad {
  import opened Arithmetic
  import opened DictTable
  import opened DictChains
  import opened DictResize
  import opened DictSearch
  import opened DictMap
  import opened DictRuns

  // ---------- stale entries through one step ----------

  lemma SubsetSize<T>(a: set<T>, b: set<T>)
    requires a <= b
    ensures |a| <= |b|
  {
    assert b == a + (b - a);
  }

  lemma FewerStale(hs: multiset<Home>, hs': multiset<Home>, log2: nat)
    requires forall h :: h in hs' && h.bucket != KeyBucket(h.entry.key, log2) ==> h in hs
    ensures |StaleHomes(hs', log2)| <= |StaleHomes(hs, log2)|
  {
    SubsetSize(StaleHomes(hs', log2), StaleHomes(hs, log2));
  }

  /** Replacing a home by one with the same bucket and key. */
  lemma SwapStale(hs: multiset<Home>, hs': multiset<Home>, g: Home, h: Home, log2: nat)
    requires hs' + multiset{g} == hs + multiset{h} && hs[g] == 1
    requires g.bucket == h.bucket && g.entry.key == h.entry.key
    ensures |StaleHomes(hs', log2)| <= |StaleHomes(hs, log2)|
  {
    var a, b := StaleHomes(hs', log2), StaleHomes(hs, log2);
    forall x | x in hs' ensures x == h || (x in hs && x != g) {
      SumMultiplicity(hs', multiset{g}, x);
      SumMultiplicity(hs, multiset{h}, x);
    }
    if g in b {
      SubsetSize(a, b - {g} + {h});
    } else {
      SubsetSize(a, b);
    }
  }

  lemma {:induction false} DistinctHomes(hs: multiset<Home>, s: set<Home>)
    requires forall h :: h in s ==> h in hs
    ensures |s| <= |hs|
    decreases |s|
  {
    if s != {} {
      var h :| h in s;
      var rest := hs - multiset{h};
      forall g | g in s - {h} ensures g in rest {
        assert rest[g] == hs[g];
      }
      DistinctHomes(rest, s - {h});
    }
  }

  /** At worst every entry is stale. */
  lemma StaleAtMostAll(t: Table, m: map<Key, Pointer>, log2: nat)
    requires Represents(t, m)
    ensures StaleCount(t, log2) <= |m|
  {
    DistinctHomes(Homes(t), StaleHomes(Homes(t), log2));
  }

  lemma LookupKeepsStale(d: Dict, m: map<Key, Pointer>, key: Key)
    requires Shape(d) && Represents(d.table, m) && LookupIndex(d, key).0.log2 == d.log2
    ensures var e := LookupIndex(d, key).0;
            e.remaps == d.remaps && e.remapEnd == d.remapEnd && StaleCount(e.table, d.log2) <= StaleCount(d.table, d.log2)
  {
    var r := Find(d, key);
    if r.Hit? && !IsCurrent(d.table[r.position], r.position, d.log2) {
      RemapLowersStale(d, m, r.position);
    }
  }

  lemma SetValueKeepsStale(d: Dict, m: map<Key, Pointer>, p: nat, value: Pointer)
    requires Shape(d) && Represents(d.table, m) && p < |d.table| && d.table[p].Used?
    ensures StaleCount(SetValue(d, p, value).table, d.log2) <= StaleCount(d.table, d.log2)
  {
    var t, u := d.table, SetValue(d, p, value).table;
    HomeOfSlot(t, p);
    SetValueHomes(d, p, value);
    SwapStale(Homes(t), Homes(u), HomeOf(t, p), HomeOf(u, p), d.log2);
  }

  lemma RemoveKeepsStale(d: Dict, p: nat)
    requires Shape(d) && p < |d.table| && d.table[p].Used?
    ensures StaleCount(RemoveAt(d, p).table, d.log2) <= StaleCount(d.table, d.log2)
  {
    RemoveChainHomes(d.table, p);
    var a, b := Homes(RemoveAt(d, p).table), Homes(d.table);
    forall h | h in a ensures h in b {
      SumMultiplicity(a, HomeAt(d.table[p], p), h);
    }
    FewerStale(b, a, d.log2);
  }

  lemma PlacedKeepsStale(d: Dict, entry: Entry)
    requires Shape(d)
    ensures StaleCount(Placed(d, entry).table, d.log2) <= StaleCount(d.table, d.log2)
  {
    PlacedHomes(d, entry);
    var a, b := Homes(Placed(d, entry).table), Homes(d.table);
    forall h | h in a && h.bucket != KeyBucket(h.entry.key, d.log2) ensures h in b {
      SumMultiplicity(b, multiset{CurrentHome(entry, d.log2)}, h);
    }
    FewerStale(b, a, d.log2);
  }

  // ---------- the passes keep up ----------

  /** The insertions left before the next growth make more moves than there are stale entries. */
  predicate KeepsUp(d: Dict) {
    StaleCount(d.table, d.log2) + 1 <= REMAP_ENTRIES * (ThresholdEntries(d.log2) - d.numEntries)
  }

  /** At most one resize is going on, and the passes to come will finish it in time. */
  predicate Light(d: Dict) {
    d.remaps <= 1 && (d.remaps == 0 <==> d.remapEnd < 0) && (d.remaps == 1 ==> KeepsUp(d))
  }

  /** Between two growths by load there is room for all the moves. */
  lemma RoomForMoves(n: nat)
    ensures ThresholdEntries(n) - 14 <= REMAP_ENTRIES * (ThresholdEntries(n + 1) - ThresholdEntries(n) - 1)
  {
    if n == 3 {
      assert Pow2(3) == 8 && Pow2(4) == 16;
    } else if n > 3 {
      Pow2Monotone(4, n);
      assert Pow2(4) == 16;
      BitsBelow(n);
    } else {
      BitsBelow(n);
    }
  }

  lemma {:induction false} BitsBelow(n: nat)
    ensures n < Pow2(n)
  {
    if n > 0 {
      BitsBelow(n - 1);
    }
  }

  lemma {:induction false} PassKeepsRemaps(d: Dict, left: nat)
    requires Shape(d) && BulkRemap(d, left).0.log2 == d.log2
    ensures var e := BulkRemap(d, left).0; e.remaps == if e.remapEnd < 0 then 0 else d.remaps
    decreases left, d.remapEnd + 1
  {
    if d.remapEnd >= 0 && left > 0 {
      PassKeepsRemaps(BulkStep(d), if NeedsMove(d) then left - 1 else left);
    }
  }

  /** A pass without growth finishes the resize or makes its sixteen moves. */
  lemma PassKeepsUp(u: Dict, m: map<Key, Pointer>)
    requires Shape(u) && Represents(u.table, m) && u.numIterators == 0 && u.remaps == 1 && u.remapEnd >= 0
    requires RemapIfRemapping(u).log2 == u.log2
    requires StaleCount(u.table, u.log2) + 1 <= REMAP_ENTRIES * (ThresholdEntries(u.log2) - u.numEntries + 1)
    ensures Light(RemapIfRemapping(u))
  {
    PassKeepsRemaps(u, REMAP_ENTRIES);
    MovesLowerStale(u, m, REMAP_ENTRIES, BulkRemap(u, REMAP_ENTRIES));
  }

  /** The table grows by its load only: not at all, or once, by an insertion at the threshold. */
  predicate GrowsByLoad(d: Dict, op: Op)
    requires WellFormed(d) && d.numIterators == 0
  {
    Step(d, op).0.log2 <= d.log2 + if op.DoInsert? && d.numEntries >= ThresholdEntries(d.log2) then 1 else 0
  }

  lemma LightLookup(d: Dict, m: map<Key, Pointer>, key: Key)
    requires Stands(d, m) && Light(d) && d.table != [] && LookupIndex(d, key).0.log2 == d.log2
    ensures Light(LookupIndex(d, key).0)
  {
    LookupKeepsStale(d, m, key);
  }

  lemma LightRemove(d: Dict, m: map<Key, Pointer>, key: Key)
    requires Stands(d, m) && Light(d) && d.numIterators == 0 && d.table != [] && Remove(d, key).0.log2 == d.log2
    ensures Light(Remove(d, key).0)
  {
    var (e, s) := LookupIndex(d, key);
    LightLookup(d, m, key);
    if s.Hit? {
      RemoveKeepsStale(e, s.position);
    }
  }

  /** At the threshold no resize is going on, so that a lookup relocates nothing. */
  lemma LightAtThreshold(d: Dict, key: Key)
    requires Shape(d) && Light(d) && d.numEntries >= ThresholdEntries(d.log2)
    ensures d.remaps == 0 && d.remapEnd < 0 && LookupIndex(d, key).0 == d
  {
  }

  /** Insertion over a present key, below the threshold. */
  lemma LightRewrite(e: Dict, m: map<Key, Pointer>, p: nat, value: Pointer)
    requires Shape(e) && Represents(e.table, m) && Light(e) && e.numIterators == 0 && p < |e.table| && e.table[p].Used?
    requires RemapIfRemapping(SetValue(e, p, value)).log2 == e.log2
    ensures Light(RemapIfRemapping(SetValue(e, p, value)))
  {
    var u := SetValue(e, p, value);
    SetValueKeepsStale(e, m, p, value);
    if e.remaps == 1 {
      SetValueRebinds(e, m, p, value);
      PassKeepsUp(u, m[e.table[p].entry.key := value]);
    }
  }

  lemma PlacedKeepsRemaps(d: Dict, entry: Entry)
    requires Shape(d)
    ensures var p := Placed(d, entry);
            if p.log2 == d.log2 then p.remaps == d.remaps && (p.remapEnd >= 0 <==> d.remapEnd >= 0)
            else p.log2 == d.log2 + 1 && p.remaps == d.remaps + 1 && p.remapEnd >= 0
  {
    var i := InsertionPoint(d.table, entry.key, d.log2);
    InsertionPointFits(d.table, entry, d.log2);
  }

  /** Insertion of a new key below the threshold: one entry more, sixteen moves. */
  lemma LightBelow(d: Dict, m: map<Key, Pointer>, entry: Entry)
    requires Shape(d) && ResizeInv(d) && Represents(d.table, m) && Light(d) && d.numIterators == 0 && entry.key !in m
    requires d.numEntries < ThresholdEntries(d.log2) && RemapIfRemapping(InsertNew(d, entry)).log2 == d.log2
    ensures Light(RemapIfRemapping(InsertNew(d, entry)))
  {
    var u := InsertNew(d, entry);
    PlacedKeepsRemaps(d, entry);
    PlacedKeepsStale(d, entry);
    assert u == Counted(Placed(d, entry));
    if d.remaps == 1 {
      PlacedRepresents(d, m, entry);
      PassKeepsUp(u, m[entry.key := entry.value]);
    }
  }

  /** What an insertion that grows the table by its load leaves before its pass. */
  lemma GrownOnceByLoad(d: Dict, m: map<Key, Pointer>, entry: Entry)
    requires Stands(d, m) && d.table != [] && Light(d) && entry.key !in m
    requires d.numEntries == ThresholdEntries(d.log2) && InsertNew(d, entry).log2 <= d.log2 + 1
    ensures var u := InsertNew(d, entry);
            && u.log2 == d.log2 + 1 && u.remaps == 1 && u.remapEnd >= 0 && u.numEntries == d.numEntries + 1
            && Represents(u.table, m[entry.key := entry.value])
  {
    InsertNewStands(d, m, entry);
    PlacedKeepsRemaps(d, entry);
    OneSizeUpIsEnough(d.log2);
  }

  lemma LightGrown(u: Dict, m: map<Key, Pointer>, n: nat)
    requires Shape(u) && Represents(u.table, m) && |m| == u.numEntries == ThresholdEntries(n) + 1 && u.log2 == n + 1
    requires u.remaps == 1 && u.remapEnd >= 0 && u.numIterators == 0 && RemapIfRemapping(u).log2 == u.log2
    ensures Light(RemapIfRemapping(u))
  {
    StaleAtMostAll(u.table, m, u.log2);
    RoomForMoves(n);
    PassKeepsUp(u, m);
  }

  lemma LightAt(d: Dict, m: map<Key, Pointer>, entry: Entry, u: Dict)
    requires Stands(d, m) && d.table != [] && Light(d) && d.numIterators == 0 && entry.key !in m
    requires d.numEntries == ThresholdEntries(d.log2) && u == InsertNew(d, entry) && RemapIfRemapping(u).log2 <= d.log2 + 1
    ensures Light(RemapIfRemapping(u))
  {
    GrownOnceByLoad(d, m, entry);
    ExtendSize(m, entry.key, entry.value);
    LightGrown(u, m[entry.key := entry.value], d.log2);
  }

  /** Inserting over a present key. */
  lemma LightInsertOver(d: Dict, m: map<Key, Pointer>, key: Key, value: Pointer, e: Dict, p: nat)
    requires Stands(d, m) && Light(d) && d.numIterators == 0 && d.table != [] && LookupIndex(d, key) == (e, Hit(p))
    requires GrowsByLoad(d, DoInsert(key, value))
    ensures Light(Insert(d, key, value).0)
  {
    StepIs(d, key, value);
    if d.numEntries == ThresholdEntries(d.log2) {
      LightAtThreshold(d, key);
    } else {
      LookupIndexCorrect(d, m, key);
      LightLookup(d, m, key);
      LightRewrite(e, m, p, value);
    }
  }

  /** Inserting a new key. */
  lemma LightInsertNew(d: Dict, m: map<Key, Pointer>, key: Key, value: Pointer)
    requires Stands(d, m) && Light(d) && d.numIterators == 0 && d.table != [] && key !in m
    requires GrowsByLoad(d, DoInsert(key, value))
    ensures Light(Insert(d, key, value).0)
  {
    StepIs(d, key, value);
    LookupIndexCorrect(d, m, key);
    var entry := Entry(key, value);
    if d.numEntries == ThresholdEntries(d.log2) {
      LightAt(d, m, entry, InsertNew(d, entry));
    } else {
      LightBelow(d, m, entry);
    }
  }

  lemma LightInsert(d: Dict, m: map<Key, Pointer>, key: Key, value: Pointer)
    requires Stands(d, m) && Light(d) && d.numIterators == 0 && d.table != []
    requires GrowsByLoad(d, DoInsert(key, value))
    ensures Light(Insert(d, key, value).0)
  {
    var (e, s) := LookupIndex(d, key);
    LookupIndexCorrect(d, m, key);
    if s.Hit? {
      LightInsertOver(d, m, key, value, e, s.position);
    } else {
      LightInsertNew(d, m, key, value);
    }
  }

  /** The first insertion allocates the table and is then an insertion like any other. */
  lemma LightFirst(d: Dict, m: map<Key, Pointer>, key: Key, value: Pointer)
    requires Stands(d, m) && Light(d) && d.numIterators == 0 && GrowsByLoad(d, DoInsert(key, value))
    ensures Light(Insert(d, key, value).0)
  {
    var d0 := Initialized(d);
    InitializedStands(d, m);
    InitializedIsLight(d);
    assert Insert(d0, key, value) == Insert(d, key, value);
    StepIs(d, key, value);
    StepIs(d0, key, value);
    LightInsert(d0, m, key, value);
  }

  lemma InitializedIsLight(d: Dict)
    requires WellFormed(d) && Light(d)
    ensures Light(Initialized(d)) && Initialized(d).table != []
    ensures Initialized(Initialized(d)) == Initialized(d)
  {
  }

  lemma LightStep(d: Dict, m: map<Key, Pointer>, op: Op)
    requires Stands(d, m) && Light(d) && d.numIterators == 0 && GrowsByLoad(d, op)
    ensures Light(Step(d, op).0)
  {
    match op
    case DoLookup(key) =>
      if d.table != [] {
        LightLookup(d, m, key);
      }
    case DoInsert(key, value) => LightFirst(d, m, key, value);
    case DoRemove(key) =>
      if d.table != [] {
        LightRemove(d, m, key);
      }
  }

  // ---------- whole runs ----------

  /** No displacement chain of the run runs off the end: the table grows by its load only. */
  predicate LoadRun(d: Dict, ops: seq<Op>)
    requires WellFormed(d) && d.numIterators == 0
    decreases |ops|
  {
    |ops| > 0 ==> GrowsByLoad(d, ops[0]) && LoadRun(Step(d, ops[0]).0, ops[1..])
  }

  /** A run that grows the table by its load only never has two resizes outstanding. */
  lemma {:induction false} LoadRunIsOneResizeRun(d: Dict, m: map<Key, Pointer>, ops: seq<Op>)
    requires Stands(d, m) && Light(d) && d.numIterators == 0 && LoadRun(d, ops)
    ensures OneResizeRun(d, ops)
    decreases |ops|
  {
    if |ops| > 0 {
      LightStep(d, m, ops[0]);
      OneResizeStep(d, m, ops[0]);
      LoadRunIsOneResizeRun(Step(d, ops[0]).0, MapStep(m, ops[0]), ops[1..]);
    }
  }

  lemma OneResizeStep(d: Dict, m: map<Key, Pointer>, op: Op)
    requires Stands(d, m) && d.remaps <= 1 && d.numIterators == 0
    ensures Stands(Step(d, op).0, MapStep(m, op))
  {
    OneResizeOperationIsSafe(d, m, op.key);
    StepIsMapStep(d, m, op);
  }

  lemma NewDictIsLight(initialSize: int)
    ensures Light(NewDictOf(initialSize))
  {
  }

  /**
   From a new dictionary of any size, every run in which no displacement chain runs off the end is a
   run of the finite map.
   */
  lemma LoadRunIsMapRun(initialSize: int, ops: seq<Op>)
    requires LoadRun(NewDictOf(initialSize), ops)
    ensures Run(NewDictOf(initialSize), ops).1 == MapRun(map[], ops).1
  {
    var d := NewDictOf(initialSize);
    NewDictStands(initialSize);
    NewDictIsLight(initialSize);
    LoadRunIsOneResizeRun(d, map[], ops);
    OneResizeRunIsSafe(d, map[], ops);
    RunIsMapRun(d, map[], ops);
  }
}
