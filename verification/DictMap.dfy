/**
 The public operations of the dictionary and their meaning: along every run the dictionary is a
 finite map, through relocation and growth, exactly as long as each operation is safe.
 */
module DictMap {
  import opened Arithmetic
  import opened DictTable
  import opened DictChains
  import opened DictResize
  import opened DictSearch
  import opened DictRecovery

  // ---------- load ----------

  const THRESHOLD_BITS := 3

  /** Full load up to `THRESHOLD_BITS`, three quarters above. */
  function ThresholdEntries(log2: nat): int {
    if log2 <= THRESHOLD_BITS then Capacity(log2) else Capacity(log2) - Capacity(log2) / 4
  }

  /** Full load in the small sizes; in the others the free slots are a quarter, rounded down. */
  lemma ThresholdIsThreeQuarters(log2: nat)
    ensures log2 <= 3 ==> ThresholdEntries(log2) == Pow2(log2) + log2
    ensures log2 > 3 ==> 3 * (Pow2(log2) + log2) <= 4 * ThresholdEntries(log2) <= 3 * (Pow2(log2) + log2) + 3
  {
  }

  /** One doubling always makes room for the entry that went over the threshold. */
  lemma OneSizeUpIsEnough(log2: nat)
    ensures ThresholdEntries(log2) + 1 <= ThresholdEntries(log2 + 1)
    ensures 0 < ThresholdEntries(log2) <= Capacity(log2)
  {
    if log2 == 3 {
      assert Pow2(3) == 8 && Pow2(4) == 16;
    } else if log2 > 3 {
      Pow2Monotone(4, log2);
      assert Pow2(4) == 16;
    }
  }

  lemma {:induction false} ThresholdMonotone(m: nat, n: nat)
    requires m <= n
    ensures ThresholdEntries(m) <= ThresholdEntries(n)
    decreases n
  {
    if m < n {
      ThresholdMonotone(m, n - 1);
      OneSizeUpIsEnough(n - 1);
    }
  }

  // ---------- operations ----------

  /** A dictionary with no table yet, or one whose table has its shape. */
  predicate WellFormed(d: Dict) {
    if d.table == [] then d.remaps == 0 && d.remapEnd == -1 else Shape(d)
  }

  /** `Init`, run on the first insertion. */
  function Initialized(d: Dict): (r: Dict)
    requires WellFormed(d)
    ensures Shape(r) && r.numIterators == d.numIterators
  {
    if d.table == [] then d.(table := Empties(Capacity(d.log2))) else d
  }

  function Lookup(d: Dict, key: Key): (r: (Dict, Pointer))
    requires WellFormed(d)
    ensures WellFormed(r.0) && r.0.numIterators == d.numIterators
  {
    if d.table == [] then (d, NULL)
    else
      var (e, s) := LookupIndex(d, key);
      (e, if s.Hit? then e.table[s.position].entry.value else NULL)
  }

  function SetValue(d: Dict, p: nat, value: Pointer): (r: Dict)
    requires Shape(d) && p < |d.table| && d.table[p].Used?
    ensures Shape(r) && r.numIterators == d.numIterators
  {
    RewriteKeepsClusters(d.table, p, value);
    d.(table := d.table[p := Rewritten(d.table, p, value)])
  }

  function Rewritten(t: Table, p: nat, value: Pointer): Slot
    requires p < |t| && t[p].Used?
  {
    t[p].(entry := t[p].entry.(value := value))
  }

  lemma RewriteKeepsClusters(t: Table, p: nat, value: Pointer)
    requires Clustered(t) && p < |t| && t[p].Used?
    ensures Clustered(t[p := Rewritten(t, p, value)])
  {
    var u := t[p := Rewritten(t, p, value)];
    forall j | 0 <= j < |u| ensures LinkedAt(u, j) {
      assert LinkedAt(t, j);
    }
  }

  /** The entry put at the end of its current bucket's cluster. */
  function Placed(d: Dict, entry: Entry): (r: Dict)
    requires Shape(d)
    ensures Shape(r) && SameCounters(d, r)
  {
    var i := InsertionPoint(d.table, entry.key, d.log2);
    InsertionPointFits(d.table, entry, d.log2);
    RelocateAndAdjust(d, SlotFor(entry, d.log2, i), i)
  }

  function Counted(d: Dict): Dict {
    d.(numEntries := d.numEntries + 1, cumEntries := d.cumEntries + 1,
       maxEntries := if d.maxEntries < d.numEntries + 1 then d.numEntries + 1 else d.maxEntries)
  }

  /** The branch of `Insert` for a key that is not there: place it, count it, grow if needed. */
  function InsertNew(d: Dict, entry: Entry): (r: Dict)
    requires Shape(d)
    ensures Shape(r) && r.numIterators == d.numIterators
  {
    var e := Counted(Placed(d, entry));
    if e.numEntries > ThresholdEntries(e.log2) then SizeUp(e) else e
  }

  function RemapIfRemapping(d: Dict): (r: Dict)
    requires Shape(d)
    ensures Shape(r) && SameCounters(d, r)
  {
    if d.remapEnd >= 0 then Remap(d) else d
  }

  function Insert(d: Dict, key: Key, value: Pointer): (r: (Dict, Pointer))
    requires WellFormed(d) && d.numIterators == 0
    ensures Shape(r.0) && r.0.numIterators == 0
  {
    var (e, s) := LookupIndex(Initialized(d), key);
    if s.Hit? then
      (RemapIfRemapping(SetValue(e, s.position, value)), e.table[s.position].entry.value)
    else
      (RemapIfRemapping(InsertNew(e, Entry(key, value))), NULL)
  }

  function Removed(d: Dict, p: nat): (r: Dict)
    requires Shape(d) && p < |d.table| && d.table[p].Used?
    ensures Shape(r) && r.numIterators == d.numIterators
  {
    RemoveAt(d, p).(numEntries := d.numEntries - 1)
  }

  function Remove(d: Dict, key: Key): (r: (Dict, Pointer))
    requires WellFormed(d) && d.numIterators == 0
    ensures WellFormed(r.0) && r.0.numIterators == 0
  {
    if d.table == [] then (d, NULL)
    else
      var (e, s) := LookupIndex(d, key);
      if s.Miss? then (e, NULL)
      else (Removed(e, s.position), e.table[s.position].entry.value)
  }

  // ---------- the dictionary is a finite map ----------

  /** `d` is in order and stands for exactly the bindings of `m`. */
  ghost predicate Stands(d: Dict, m: map<Key, Pointer>) {
    && WellFormed(d)
    && (if d.table == [] then m == map[] else ResizeInv(d) && Represents(d.table, m))
    && |m| == d.numEntries <= d.maxEntries
    && d.numEntries <= ThresholdEntries(d.log2)
  }

  /** The guard of a lookup: it relocates nothing, or carries no entry of an earlier size too far. */
  predicate Safe(d: Dict, key: Key)
    requires WellFormed(d)
  {
    d.table == [] || LookupSafe(d, key)
  }

  /** Where an unsafe lookup puts the entry of an earlier size that it carries across `remapEnd`. */
  function StrayOf(d: Dict, key: Key): nat
    requires Shape(d) && !LookupSafe(d, key)
  {
    var (e, s, i) := Lifted(d, Find(d, key).position);
    Carried(e.table, s, i, d.remapEnd).1
  }

  /** The guard of an insertion: its lookup is safe, or the pass after it brings the stray entry back. */
  predicate InsertSafe(d: Dict, key: Key, value: Pointer)
    requires WellFormed(d)
  {
    Safe(d, key) ||
      var (e, s) := LookupIndex(d, key);
      s.Hit? && Recovers(SetValue(e, s.position, value), StrayOf(d, key), REMAP_ENTRIES)
  }

  function Get(m: map<Key, Pointer>, key: Key): Pointer {
    if key in m then m[key] else NULL
  }

  lemma OneResizeOperationIsSafe(d: Dict, m: map<Key, Pointer>, key: Key)
    requires Stands(d, m) && d.remaps <= 1
    ensures Safe(d, key)
  {
    if d.table != [] {
      OneResizeIsSafe(d, key);
    }
  }

  lemma LookupIndexStands(d: Dict, m: map<Key, Pointer>, key: Key)
    requires Stands(d, m) && d.table != [] && LookupSafe(d, key)
    ensures Stands(LookupIndex(d, key).0, m)
  {
    LookupIndexCorrect(d, m, key);
    LookupKeepsInvIff(d, key);
    ThresholdMonotone(d.log2, LookupIndex(d, key).0.log2);
  }

  /**
   A lookup always returns the bound value, or null. The dictionary goes on standing for the map
   exactly when the lookup was safe.
   */
  lemma LookupIsMapGet(d: Dict, m: map<Key, Pointer>, key: Key)
    requires Stands(d, m)
    ensures var (e, v) := Lookup(d, key); v == Get(m, key) && (Stands(e, m) <==> Safe(d, key))
  {
    if d.table != [] {
      LookupIndexCorrect(d, m, key);
      LookupKeepsInvIff(d, key);
      if LookupSafe(d, key) {
        LookupIndexStands(d, m, key);
      }
    }
  }

  lemma EmptyTableInv(log2: nat, d: Dict)
    requires d.table == Empties(Capacity(log2)) && d.log2 == log2 && d.remaps == 0 && d.remapEnd == -1
    ensures ResizeInv(d) && Represents(d.table, map[])
  {
    assert [] + Empties(Capacity(log2)) == d.table;
    HomesPad([], Capacity(log2));
  }

  lemma InitializedStands(d: Dict, m: map<Key, Pointer>)
    requires Stands(d, m)
    ensures Stands(Initialized(d), m)
    ensures forall key :: d.table == [] ==> LookupSafe(Initialized(d), key)
  {
    if d.table == [] {
      EmptyTableInv(d.log2, Initialized(d));
    }
  }

  lemma SetValuePlaced(d: Dict, p: nat, value: Pointer)
    requires Shape(d) && p < |d.table| && d.table[p].Used?
    requires AllPlaced(d.table, d.log2, d.remaps)
    ensures AllPlaced(SetValue(d, p, value).table, d.log2, d.remaps)
  {
    var t, u := d.table, SetValue(d, p, value).table;
    forall i | 0 <= i < |u| && u[i].Used? ensures PlacedWithin(HomeOf(u, i), d.log2, d.remaps) {
      assert PlacedWithin(HomeOf(t, i), d.log2, d.remaps);
      PlacedIgnoresValue(HomeOf(t, i), HomeOf(u, i), d.log2, d.remaps);
    }
  }

  lemma SetValueCurrentIff(d: Dict, p: nat, value: Pointer, low: int)
    requires Shape(d) && p < |d.table| && d.table[p].Used?
    ensures CurrentFrom(SetValue(d, p, value).table, d.log2, low) <==> CurrentFrom(d.table, d.log2, low)
  {
    var t, u := d.table, SetValue(d, p, value).table;
    assert forall i :: 0 <= i < |t| ==> (IsCurrent(u[i], i, d.log2) <==> IsCurrent(t[i], i, d.log2));
  }

  lemma {:induction false} PlacedIgnoresValue(g: Home, h: Home, log2: nat, remaps: nat)
    requires g.entry.key == h.entry.key && g.bucket == h.bucket
    ensures PlacedWithin(g, log2, remaps) == PlacedWithin(h, log2, remaps)
  {
    if remaps > 0 && log2 > 0 {
      PlacedIgnoresValue(g, h, log2 - 1, remaps - 1);
    }
  }

  lemma SetValueHomes(d: Dict, p: nat, value: Pointer)
    requires Shape(d) && p < |d.table| && d.table[p].Used?
    ensures var u := SetValue(d, p, value).table;
            Homes(u) + multiset{HomeOf(d.table, p)} == Homes(d.table) + multiset{HomeOf(u, p)}
  {
    var t, u := d.table, SetValue(d, p, value).table;
    var g, h := HomeOf(t, p), HomeOf(u, p);
    forall x ensures Homes(u)[x] + multiset{g}[x] == Homes(t)[x] + multiset{h}[x] {
      HomesUpdate(t, p, u[p], x);
    }
    PointwiseSums(Homes(u), multiset{g}, Homes(t), multiset{h});
  }

  lemma SetValueRebinds(d: Dict, m: map<Key, Pointer>, p: nat, value: Pointer)
    requires Shape(d) && Represents(d.table, m) && p < |d.table| && d.table[p].Used?
    ensures var m' := m[d.table[p].entry.key := value];
            Represents(SetValue(d, p, value).table, m') && |m'| == |m|
  {
    var t, u := d.table, SetValue(d, p, value).table;
    HomeOfSlot(t, p);
    SetValueHomes(d, p, value);
    BindingsReplace(Homes(t), m, Homes(u), HomeOf(t, p), HomeOf(u, p));
    RebindSize(m, t[p].entry.key, value);
  }

  lemma RebindSize<K, V>(m: map<K, V>, k: K, v: V)
    requires k in m
    ensures |m[k := v]| == |m|
  {
    assert m[k := v].Keys == m.Keys;
  }

  lemma SetValueStands(d: Dict, m: map<Key, Pointer>, p: nat, value: Pointer)
    requires Stands(d, m) && p < |d.table| && d.table[p].Used?
    ensures Stands(SetValue(d, p, value), m[d.table[p].entry.key := value])
  {
    SetValuePlaced(d, p, value);
    SetValueCurrentIff(d, p, value, d.remapEnd + 1);
    SetValueRebinds(d, m, p, value);
  }

  lemma PlacedHomes(d: Dict, entry: Entry)
    requires Shape(d)
    ensures Homes(Placed(d, entry).table) == Homes(d.table) + multiset{CurrentHome(entry, d.log2)}
  {
    var i := InsertionPoint(d.table, entry.key, d.log2);
    InsertionPointFits(d.table, entry, d.log2);
    var s := SlotFor(entry, d.log2, i);
    RelocateHomes(d, s, i);
    assert HomeAt(s, i) == multiset{CurrentHome(entry, d.log2)};
  }

  lemma PlacingAddsBinding(d: Dict, m: map<Key, Pointer>, entry: Entry)
    requires ResizeInv(d) && Represents(d.table, m) && entry.key !in m
    ensures ResizeInv(Placed(d, entry))
    ensures Represents(Placed(d, entry).table, m[entry.key := entry.value])
  {
    var i := InsertionPoint(d.table, entry.key, d.log2);
    InsertionPointFits(d.table, entry, d.log2);
    RelocateAndAdjustKeepsInv(d, SlotFor(entry, d.log2, i), i);
    PlacedRepresents(d, m, entry);
  }

  lemma PlacedRepresents(d: Dict, m: map<Key, Pointer>, entry: Entry)
    requires Shape(d) && Represents(d.table, m) && entry.key !in m
    ensures Represents(Placed(d, entry).table, m[entry.key := entry.value])
  {
    PlacedHomes(d, entry);
    BindingsAdd(Homes(d.table), m, CurrentHome(entry, d.log2));
    ExtendSize(m, entry.key, entry.value);
  }

  lemma ExtendSize<K, V>(m: map<K, V>, k: K, v: V)
    requires k !in m
    ensures |m[k := v]| == |m| + 1
  {
    assert m[k := v].Keys == m.Keys + {k};
    assert |m[k := v].Keys| == |m.Keys| + 1;
  }

  lemma SizeUpStands(d: Dict, m: map<Key, Pointer>)
    requires WellFormed(d) && d.table != [] && ResizeInv(d) && Represents(d.table, m)
    requires |m| == d.numEntries <= d.maxEntries && d.numEntries <= ThresholdEntries(d.log2) + 1
    ensures Stands(SizeUp(d), m)
  {
    SizeUpKeepsInv(d);
    OneSizeUpIsEnough(d.log2);
  }

  lemma InsertNewStands(d: Dict, m: map<Key, Pointer>, entry: Entry)
    requires Stands(d, m) && d.table != [] && entry.key !in m
    ensures Stands(InsertNew(d, entry), m[entry.key := entry.value])
  {
    var p, e := Placed(d, entry), Counted(Placed(d, entry));
    PlacingAddsBinding(d, m, entry);
    ExtendSize(m, entry.key, entry.value);
    assert ResizeInv(e) && e.table == p.table;
    ThresholdMonotone(d.log2, e.log2);
    if e.numEntries > ThresholdEntries(e.log2) {
      SizeUpStands(e, m[entry.key := entry.value]);
    }
  }

  lemma {:induction false} BulkRemapRepresents(d: Dict, m: map<Key, Pointer>, left: nat)
    requires Shape(d) && Represents(d.table, m)
    ensures Represents(BulkRemap(d, left).0.table, m)
    decreases left, d.remapEnd + 1
  {
    if d.remapEnd >= 0 && left > 0 {
      if NeedsMove(d) {
        MoveKeepsMap(d, m, d.remapEnd);
      }
      BulkRemapRepresents(BulkStep(d), m, if NeedsMove(d) then left - 1 else left);
    }
  }

  lemma RemapStands(d: Dict, m: map<Key, Pointer>)
    requires Stands(d, m) && d.table != []
    ensures Stands(RemapIfRemapping(d), m)
  {
    BulkRemapKeepsInv(d, REMAP_ENTRIES);
    BulkRemapRepresents(d, m, REMAP_ENTRIES);
    ThresholdMonotone(d.log2, RemapIfRemapping(d).log2);
  }

  lemma SafeInsertStands(d: Dict, m: map<Key, Pointer>, key: Key, value: Pointer)
    requires Stands(d, m) && Safe(d, key) && d.numIterators == 0
    ensures Stands(Insert(d, key, value).0, m[key := value])
  {
    var d0 := Initialized(d);
    InitializedStands(d, m);
    LookupIndexStands(d0, m, key);
    LookupIndexCorrect(d0, m, key);
    var (e, s) := LookupIndex(d0, key);
    if s.Hit? {
      SetValueStands(e, m, s.position, value);
      RemapStands(SetValue(e, s.position, value), m[key := value]);
    } else {
      InsertNewStands(e, m, Entry(key, value));
      RemapStands(InsertNew(e, Entry(key, value)), m[key := value]);
    }
  }

  /** An unsafe lookup leaves one stray entry, the one it carried across `remapEnd`. */
  lemma LookupStrays(d: Dict, key: Key)
    requires ResizeInv(d) && !LookupSafe(d, key)
    ensures Strayed(LookupIndex(d, key).0, StrayOf(d, key))
  {
    var p := UnsafeLookupMoves(d, key);
    LookupPlaced(d, key);
    var (g, s, i) := Lifted(d, p);
    RemoveAtKeepsInv(d, p);
    CarriedStrays(g.table, s, i, d.log2, d.remapEnd);
  }

  /** Rewriting a value leaves the stray entry where it is. */
  lemma SetValueStrays(d: Dict, p: nat, value: Pointer, j: nat)
    requires Strayed(d, j) && p < |d.table| && d.table[p].Used?
    ensures Strayed(SetValue(d, p, value), j)
  {
    SetValuePlaced(d, p, value);
    var t, u := d.table, SetValue(d, p, value).table;
    assert forall i :: 0 <= i < |t| ==> (IsCurrent(u[i], i, d.log2) <==> IsCurrent(t[i], i, d.log2));
  }

  /** What an unsafe insertion makes of the table before its pass. */
  ghost predicate BeforePass(d: Dict, m': map<Key, Pointer>, size: nat, u: Dict, j: nat) {
    && Strayed(u, j) && u.remapEnd >= 0 && Represents(u.table, m') && |m'| == size
    && SameCounters(d, u)
  }

  lemma UnsafeLookupStrays(d: Dict, m: map<Key, Pointer>, key: Key, value: Pointer)
    requires Stands(d, m) && d.table != [] && !LookupSafe(d, key)
    ensures var (e, s) := LookupIndex(d, key);
            s.Hit? && BeforePass(d, m[key := value], |m|, SetValue(e, s.position, value), StrayOf(d, key))
  {
    var p := UnsafeLookupMoves(d, key);
    LookupIndexCorrect(d, m, key);
    LookupStrays(d, key);
    LookupPlaced(d, key);
    var (e, s) := LookupIndex(d, key);
    SetValueStrays(e, s.position, value, StrayOf(d, key));
    SetValueRebinds(e, m, s.position, value);
  }

  /** What a pass makes of a table with a stray entry: the map again, or a key out of reach. */
  lemma StrayedPass(u: Dict, j: nat, m: map<Key, Pointer>)
    requires Strayed(u, j) && Represents(u.table, m)
    ensures var e := BulkRemap(u, REMAP_ENTRIES).0;
            && Represents(e.table, m)
            && (ResizeInv(e) <==> Recovers(u, j, REMAP_ENTRIES))
            && (!ResizeInv(e) ==> exists k :: k in m && Find(e, k).Miss?)
  {
    BulkRemapRepresents(u, m, REMAP_ENTRIES);
    PassRestoresIff(u, j, REMAP_ENTRIES);
    if !Recovers(u, j, REMAP_ENTRIES) {
      StrayIsLost(BulkRemap(u, REMAP_ENTRIES).0, m);
    }
  }

  lemma InsertOverStray(d: Dict, key: Key, value: Pointer, u: Dict)
    requires WellFormed(d) && d.table != [] && d.numIterators == 0
    requires var (e, s) := LookupIndex(d, key); s.Hit? && u == SetValue(e, s.position, value) && u.remapEnd >= 0
    ensures Insert(d, key, value).0 == BulkRemap(u, REMAP_ENTRIES).0
  {
  }

  /** An unsafe insertion is the pass on a table with a stray entry. */
  lemma UnsafeInsertIsPass(d: Dict, m: map<Key, Pointer>, key: Key, value: Pointer) returns (u: Dict, j: nat)
    requires Stands(d, m) && !Safe(d, key) && d.numIterators == 0
    ensures BeforePass(d, m[key := value], |m|, u, j)
    ensures Insert(d, key, value).0 == BulkRemap(u, REMAP_ENTRIES).0
    ensures InsertSafe(d, key, value) <==> Recovers(u, j, REMAP_ENTRIES)
  {
    UnsafeLookupStrays(d, m, key, value);
    var (e, s) := LookupIndex(d, key);
    u, j := SetValue(e, s.position, value), StrayOf(d, key);
    InsertOverStray(d, key, value, u);
  }

  lemma StandsIffInv(d: Dict, m: map<Key, Pointer>, e: Dict, m': map<Key, Pointer>)
    requires Stands(d, m) && Shape(e) && SameCounters(d, e) && |m'| == |m| && Represents(e.table, m')
    ensures Stands(e, m') <==> ResizeInv(e)
  {
    ThresholdMonotone(d.log2, e.log2);
  }

  lemma UnsafeInsert(d: Dict, m: map<Key, Pointer>, key: Key, value: Pointer)
    requires Stands(d, m) && !Safe(d, key) && d.numIterators == 0
    ensures var e := Insert(d, key, value).0; var m' := m[key := value];
            && (Stands(e, m') <==> InsertSafe(d, key, value))
            && (!InsertSafe(d, key, value) ==> exists k :: k in m' && Find(e, k).Miss?)
  {
    var u, j := UnsafeInsertIsPass(d, m, key, value);
    StrayedPass(u, j, m[key := value]);
    StandsIffInv(d, m, BulkRemap(u, REMAP_ENTRIES).0, m[key := value]);
  }

  lemma InsertReturns(d: Dict, m: map<Key, Pointer>, key: Key, value: Pointer)
    requires Stands(d, m) && d.numIterators == 0
    ensures Insert(d, key, value).1 == Get(m, key)
  {
    InitializedStands(d, m);
    LookupIndexCorrect(Initialized(d), m, key);
  }

  /**
   An insertion returns the previous value, or null, although it may relocate entries, grow the table
   in mid-chain and run a pass of the bulk remap. It rebinds its own key and no other exactly when
   it was safe.
   */
  lemma InsertIsMapUpdate(d: Dict, m: map<Key, Pointer>, key: Key, value: Pointer)
    requires Stands(d, m) && d.numIterators == 0
    ensures var (e, v) := Insert(d, key, value);
            v == Get(m, key) && (Stands(e, m[key := value]) <==> InsertSafe(d, key, value))
  {
    InsertReturns(d, m, key, value);
    if Safe(d, key) {
      SafeInsertStands(d, m, key, value);
    } else {
      UnsafeInsert(d, m, key, value);
    }
  }

  /** After an insertion every bound key can be found exactly when the insertion was safe. */
  lemma InsertLosesNoKeyIff(d: Dict, m: map<Key, Pointer>, key: Key, value: Pointer)
    requires Stands(d, m) && d.numIterators == 0
    ensures var e := Insert(d, key, value).0;
            (forall k :: k in m[key := value] ==> Find(e, k).Hit?) <==> InsertSafe(d, key, value)
  {
    var e, m' := Insert(d, key, value).0, m[key := value];
    if InsertSafe(d, key, value) {
      InsertIsMapUpdate(d, m, key, value);
      AllFound(e, m');
    } else {
      UnsafeInsert(d, m, key, value);
    }
  }

  lemma RemovalDropsBinding(d: Dict, m: map<Key, Pointer>, p: nat)
    requires Shape(d) && Represents(d.table, m) && p < |d.table| && d.table[p].Used?
    ensures d.table[p].entry.key in m
    ensures Represents(RemoveAt(d, p).table, m - {d.table[p].entry.key})
  {
    var t, r, h := d.table, RemoveAt(d, p).table, HomeOf(d.table, p);
    RemoveChainHomes(t, p);
    HomeOfSlot(t, p);
    assert HomeAt(t[p], p) == multiset{h};
    BindingsDrop(Homes(t), m, Homes(r), h);
    OneFewer(Homes(r), Homes(t), h);
    EraseSize(m, h.entry.key);
  }

  lemma OneFewer<T>(a: multiset<T>, b: multiset<T>, x: T)
    requires a + multiset{x} == b
    ensures |a| == |b| - 1
  {
    assert |a + multiset{x}| == |a| + 1;
  }

  lemma EraseSize<K, V>(m: map<K, V>, k: K)
    requires k in m
    ensures |m - {k}| == |m| - 1
  {
    assert (m - {k}).Keys == m.Keys - {k};
    assert |(m - {k}).Keys| == |m.Keys| - 1;
  }

  lemma EraseAbsent<K, V>(m: map<K, V>, k: K)
    requires k !in m
    ensures m - {k} == m
  {
  }

  lemma RemovedStands(d: Dict, m: map<Key, Pointer>, p: nat)
    requires Stands(d, m) && p < |d.table| && d.table[p].Used?
    ensures Stands(Removed(d, p), m - {d.table[p].entry.key})
  {
    RemoveAtKeepsInv(d, p);
    RemovalDropsBinding(d, m, p);
    EraseSize(m, d.table[p].entry.key);
  }

  /** A removal whose lookup was unsafe leaves what removing the entry from its old place leaves. */
  lemma UnsafeRemoval(d: Dict, m: map<Key, Pointer>, key: Key)
    requires Stands(d, m) && d.table != [] && !LookupSafe(d, key) && d.numIterators == 0
    ensures var (e, v) := Remove(d, key); Stands(e, m - {key})
  {
    var p := UnsafeLookupMoves(d, key);
    RemovalUndoesUnsafeLookup(d, key);
    RemovedStands(d, m, p);
  }

  /**
   A removal returns the stored value, or null, and unbinds only its own key, for any number of
   outstanding resizes: what its lookup may displace, the removal pulls back.
   */
  lemma RemoveIsMapErase(d: Dict, m: map<Key, Pointer>, key: Key)
    requires Stands(d, m) && d.numIterators == 0
    ensures var (e, v) := Remove(d, key); Stands(e, m - {key}) && v == Get(m, key)
  {
    if d.table != [] {
      LookupIndexCorrect(d, m, key);
      if !LookupSafe(d, key) {
        UnsafeRemoval(d, m, key);
      } else {
        LookupIndexStands(d, m, key);
        var (e, s) := LookupIndex(d, key);
        if s.Hit? {
          RemovedStands(e, m, s.position);
        } else {
          EraseAbsent(m, key);
        }
      }
    }
  }

  lemma InsertNewKeepsLoad(d: Dict, entry: Entry)
    requires Shape(d) && d.numEntries <= ThresholdEntries(d.log2)
    ensures InsertNew(d, entry).numEntries <= ThresholdEntries(InsertNew(d, entry).log2)
  {
    var e := Placed(d, entry);
    ThresholdMonotone(d.log2, e.log2);
    OneSizeUpIsEnough(e.log2);
  }

  lemma RemapKeepsLoad(d: Dict)
    requires Shape(d) && d.numEntries <= ThresholdEntries(d.log2)
    ensures var e := RemapIfRemapping(d); e.numEntries <= ThresholdEntries(e.log2) <= Capacity(e.log2)
  {
    ThresholdMonotone(d.log2, RemapIfRemapping(d).log2);
    OneSizeUpIsEnough(RemapIfRemapping(d).log2);
  }

  /** After every insertion, on any table, the load is within the threshold and the capacity. */
  lemma InsertKeepsLoad(d: Dict, key: Key, value: Pointer)
    requires WellFormed(d) && d.numIterators == 0 && d.numEntries <= ThresholdEntries(d.log2)
    ensures var e := Insert(d, key, value).0;
            e.numEntries <= ThresholdEntries(e.log2) <= Capacity(e.log2)
  {
    var (e, s) := LookupIndex(Initialized(d), key);
    ThresholdMonotone(d.log2, e.log2);
    if s.Hit? {
      RemapKeepsLoad(SetValue(e, s.position, value));
    } else {
      InsertNewKeepsLoad(e, Entry(key, value));
      RemapKeepsLoad(InsertNew(e, Entry(key, value)));
    }
  }
}
