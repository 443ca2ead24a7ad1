/**
 Looking keys up while a resize is in progress: the multi-size search, its agreement with a scan
 of the whole table, and the relocation that a successful lookup performs.
 */
module DictSearch {
  import opened Arithmetic
  import opened DictTable
  import opened DictChains
  import opened DictResize

  // ---------- the finite map a table stands for ----------

  /** `hs` holds each binding of `m` exactly once, under one bucket, and nothing else. */
  ghost predicate Bindings(hs: multiset<Home>, m: map<Key, Pointer>) {
    && (forall h :: h in hs ==> hs[h] == 1 && h.entry.key in m && m[h.entry.key] == h.entry.value)
    && (forall g, h :: g in hs && h in hs && g.entry.key == h.entry.key ==> g == h)
    && (forall k :: k in m ==> exists h :: h in hs && h.entry.key == k)
  }

  ghost predicate Represents(t: Table, m: map<Key, Pointer>) {
    Bindings(Homes(t), m) && |Homes(t)| == |m|
  }

  lemma AddOne<T>(a: multiset<T>, x: T, y: T)
    ensures (a + multiset{x})[y] == a[y] + (if x == y then 1 else 0)
    ensures y in a + multiset{x} <==> y == x || y in a
  {
  }

  lemma BindingsAdd(hs: multiset<Home>, m: map<Key, Pointer>, h: Home)
    requires Bindings(hs, m) && h.entry.key !in m
    ensures Bindings(hs + multiset{h}, m[h.entry.key := h.entry.value])
  {
    BindingsExtend(hs, m, hs + multiset{h}, m[h.entry.key := h.entry.value], h) by {
      forall g ensures (hs + multiset{h})[g] == hs[g] + (if g == h then 1 else 0) {
        AddOne(hs, h, g);
      }
    }
  }

  lemma BindingsExtend(hs: multiset<Home>, m: map<Key, Pointer>, hs': multiset<Home>, m': map<Key, Pointer>, h: Home)
    requires Bindings(hs, m) && h.entry.key !in m
    requires forall g :: hs'[g] == hs[g] + (if g == h then 1 else 0)
    requires m' == m[h.entry.key := h.entry.value]
    ensures Bindings(hs', m')
  {
    HomesExtend(hs, m, hs', h);
    forall k | k in m' ensures exists g :: g in hs' && g.entry.key == k {
      if k in m {
        var g :| g in hs && g.entry.key == k;
        assert hs'[g] > 0;
      } else {
        assert hs'[h] > 0;
      }
    }
  }

  lemma HomesExtend(hs: multiset<Home>, m: map<Key, Pointer>, hs': multiset<Home>, h: Home)
    requires Bindings(hs, m) && h.entry.key !in m
    requires forall g :: hs'[g] == hs[g] + (if g == h then 1 else 0)
    ensures forall g :: g in hs' ==> hs'[g] == 1 && (g == h || (g in hs && g.entry.key != h.entry.key))
  {
    forall g | g in hs' ensures hs'[g] == 1 && (g == h || (g in hs && g.entry.key != h.entry.key)) {
      assert hs'[g] > 0;
      assert h !in hs;
    }
  }

  lemma BindingsDrop(hs: multiset<Home>, m: map<Key, Pointer>, hs': multiset<Home>, h: Home)
    requires Bindings(hs, m) && hs' + multiset{h} == hs
    ensures Bindings(hs', m - {h.entry.key})
  {
    forall g ensures hs[g] == hs'[g] + (if g == h then 1 else 0) {
      AddOne(hs', h, g);
    }
    BindingsShrink(hs, m, hs', m - {h.entry.key}, h);
  }

  lemma BindingsShrink(hs: multiset<Home>, m: map<Key, Pointer>, hs': multiset<Home>, m': map<Key, Pointer>, h: Home)
    requires Bindings(hs, m) && forall g :: hs[g] == hs'[g] + (if g == h then 1 else 0)
    requires m' == m - {h.entry.key}
    ensures Bindings(hs', m')
  {
    assert hs[h] > 0;
    forall g | g in hs' ensures g in hs && g != h && hs'[g] == 1 {
      assert hs[g] > 0;
    }
    forall k | k in m' ensures exists g :: g in hs' && g.entry.key == k {
      var g :| g in hs && g.entry.key == k;
      assert hs'[g] > 0;
    }
  }

  /** Replacing one home of a key by another rebinds that key and no other. */
  lemma BindingsReplace(hs: multiset<Home>, m: map<Key, Pointer>, hs': multiset<Home>, g: Home, h: Home)
    requires Bindings(hs, m) && g in hs && g.entry.key == h.entry.key
    requires hs' + multiset{g} == hs + multiset{h}
    ensures Bindings(hs', m[h.entry.key := h.entry.value])
    ensures |hs'| == |hs|
  {
    var key := h.entry.key;
    var rest := SwapOne(hs, hs', g, h);
    BindingsDrop(hs, m, rest, g);
    BindingsAdd(rest, m - {key}, h);
    Rebind(m, key, h.entry.value);
  }

  lemma Rebind<K, V>(m: map<K, V>, k: K, v: V)
    ensures (m - {k})[k := v] == m[k := v]
  {
  }

  lemma SwapOne<T>(a: multiset<T>, b: multiset<T>, x: T, y: T) returns (rest: multiset<T>)
    requires x in a && b + multiset{x} == a + multiset{y}
    ensures rest + multiset{x} == a && rest + multiset{y} == b
    ensures |a| == |b|
  {
    rest := a - multiset{x};
    assert |b + multiset{x}| == |a + multiset{y}|;
    assert b == (b + multiset{x}) - multiset{x};
  }

  // ---------- keys by position ----------

  predicate KeyAt(t: Table, i: nat, key: Key) {
    i < |t| && t[i].Used? && t[i].entry.key == key
  }

  lemma KeyAtBinding(t: Table, m: map<Key, Pointer>, i: nat)
    requires Represents(t, m) && i < |t| && t[i].Used?
    ensures t[i].entry.key in m && m[t[i].entry.key] == t[i].entry.value
  {
    HomeOfSlot(t, i);
  }

  lemma BindingHasPosition(t: Table, m: map<Key, Pointer>, key: Key) returns (i: nat)
    requires Represents(t, m) && key in m
    ensures KeyAt(t, i, key)
  {
    var h :| h in Homes(t) && h.entry.key == key;
    i := SlotOfHome(t, h);
  }

  lemma UniquePosition(t: Table, m: map<Key, Pointer>, key: Key, i: nat, j: nat)
    requires Represents(t, m) && KeyAt(t, i, key) && KeyAt(t, j, key)
    ensures i == j
  {
    var a, b := if i <= j then i else j, if i <= j then j else i;
    HomeOfSlot(t, a);
    HomeOfSlot(t, b);
    if a < b {
      var h := HomeOf(t, a);
      CountPair(t, a, b, h, |t|);
      CountIsMultiplicity(t, h, |t|);
      assert false;
    }
  }

  // ---------- the multi-size search ----------

  function EarlierSearch(d: Dict, key: Key, i: nat): (r: Search)
    requires Shape(d) && i <= d.remaps
    ensures r.Hit? ==> KeyAt(d.table, r.position, key)
                       && Bucket(d.table, r.position) == KeyBucket(key, d.log2 - i)
                       && r.position <= d.remapEnd
  {
    var bucket := KeyBucket(key, d.log2 - i);
    if bucket <= d.remapEnd then ClusterSearch(d.table, key, bucket, bucket, d.remapEnd + 1) else Miss(0)
  }

  /** The loop over earlier sizes, from `i` outstanding resizes back. */
  function SearchEarlier(d: Dict, key: Key, i: nat): (r: Search)
    requires Shape(d)
    ensures r.Hit? ==> KeyAt(d.table, r.position, key) && r.position <= d.remapEnd && i <= d.remaps
    ensures r.Hit? ==> exists j :: i <= j <= d.remaps && EarlierSearch(d, key, j) == r
    decreases d.remaps - i
  {
    if i > d.remaps then Miss(0)
    else
      var r := EarlierSearch(d, key, i);
      if r.Hit? then r else SearchEarlier(d, key, i + 1)
  }

  function SearchCurrent(d: Dict, key: Key): (r: Search)
    requires Shape(d)
    ensures r.Hit? ==> KeyAt(d.table, r.position, key)
    ensures r.Miss? ==> r.insertPosition == InsertionPoint(d.table, key, d.log2)
  {
    var bucket := KeyBucket(key, d.log2);
    MissIsEnd(d.table, key, bucket, bucket);
    ClusterSearch(d.table, key, bucket, bucket, |d.table|)
  }

  lemma {:induction false} MissIsEnd(t: Table, key: Key, bucket: nat, i: nat)
    requires i <= |t|
    ensures var r := ClusterSearch(t, key, bucket, i, |t|);
            r.Miss? ==> r.insertPosition == EndOfCluster(t, bucket, i)
    decreases |t| - i
  {
    if i < |t| && t[i].Used? && Bucket(t, i) <= bucket {
      MissIsEnd(t, key, bucket, i + 1);
    }
  }

  /** The search of `LookupIndex`, without the relocation. */
  function Find(d: Dict, key: Key): (r: Search)
    requires Shape(d)
    ensures r.Hit? ==> KeyAt(d.table, r.position, key)
    ensures r.Miss? ==> r.insertPosition == InsertionPoint(d.table, key, d.log2)
  {
    var r := SearchCurrent(d, key);
    if r.Hit? then r
    else
      var earlier := SearchEarlier(d, key, 1);
      if earlier.Hit? then earlier else r
  }

  lemma {:induction false} PlacedSize(h: Home, log2: nat, remaps: nat) returns (i: nat)
    requires PlacedWithin(h, log2, remaps)
    ensures i <= remaps && i <= log2 && h.bucket == KeyBucket(h.entry.key, log2 - i)
  {
    if h.bucket == KeyBucket(h.entry.key, log2) {
      i := 0;
    } else {
      i := PlacedSize(h, log2 - 1, remaps - 1);
      i := i + 1;
    }
  }

  lemma {:induction false} EarlierHitSuffices(d: Dict, key: Key, i: nat, j: nat)
    requires Shape(d) && i <= j <= d.remaps && EarlierSearch(d, key, j).Hit?
    ensures SearchEarlier(d, key, i).Hit?
    decreases j - i
  {
    if EarlierSearch(d, key, i).Miss? {
      EarlierHitSuffices(d, key, i + 1, j);
    }
  }

  /** A stale entry is found by the search for the size it was placed for. */
  lemma StaleIsFoundEarlier(d: Dict, key: Key, p: nat) returns (i: nat)
    requires ResizeInv(d) && KeyAt(d.table, p, key) && !IsCurrent(d.table[p], p, d.log2)
    ensures 1 <= i <= d.remaps && EarlierSearch(d, key, i).Hit?
  {
    i := PlacedSize(HomeOf(d.table, p), d.log2, d.remaps);
    DistanceBound(d.table, p);
    var bucket := KeyBucket(key, d.log2 - i);
    if ClusterSearch(d.table, key, bucket, bucket, d.remapEnd + 1).Miss? {
      MissMeansAbsent(d.table, key, bucket, d.remapEnd + 1, p);
      assert false;
    }
  }

  /** No stored key escapes the search, however many resizes are outstanding. */
  lemma FindIsComplete(d: Dict, key: Key, p: nat)
    requires ResizeInv(d) && KeyAt(d.table, p, key)
    ensures Find(d, key).Hit?
  {
    if SearchCurrent(d, key).Miss? {
      MissMeansAbsent(d.table, key, KeyBucket(key, d.log2), |d.table|, p);
      var i := StaleIsFoundEarlier(d, key, p);
      EarlierHitSuffices(d, key, 1, i);
    }
  }

  /** `LinearLookupIndex`: the first position from `i` on that holds the key. */
  function LinearSearch(t: Table, key: Key, i: nat): (r: Search)
    requires i <= |t|
    ensures r.Hit? ==> i <= r.position && KeyAt(t, r.position, key)
    ensures r.Miss? ==> forall j :: i <= j < |t| ==> !KeyAt(t, j, key)
    decreases |t| - i
  {
    if i == |t| then Miss(|t|) else if KeyAt(t, i, key) then Hit(i) else LinearSearch(t, key, i + 1)
  }

  /**
   The search agrees with a scan of the whole table: the same position, or both fail; and it
   succeeds exactly on the keys of the map, for any number of outstanding resizes.
   */
  lemma FindIsLinearSearch(d: Dict, m: map<Key, Pointer>, key: Key)
    requires ResizeInv(d) && Represents(d.table, m)
    ensures Find(d, key).Hit? <==> LinearSearch(d.table, key, 0).Hit?
    ensures Find(d, key).Hit? <==> key in m
    ensures Find(d, key).Hit? ==> Find(d, key).position == LinearSearch(d.table, key, 0).position
    ensures Find(d, key).Miss? ==>
              var i := Find(d, key).insertPosition;
              Fits(d.table, SlotFor(Entry(key, NULL), d.log2, i), i)
  {
    var r, linear := Find(d, key), LinearSearch(d.table, key, 0);
    if key in m {
      var p := BindingHasPosition(d.table, m, key);
      FindIsComplete(d, key, p);
      UniquePosition(d.table, m, key, r.position, linear.position);
    } else {
      if r.Hit? { KeyAtBinding(d.table, m, r.position); }
      if linear.Hit? { KeyAtBinding(d.table, m, linear.position); }
    }
    if r.Miss? {
      InsertionPointFits(d.table, Entry(key, NULL), d.log2);
    }
  }

  // ---------- lookup with relocation ----------

  /** `LookupIndex`: a key found under an earlier size moves to its current bucket, unless iterating. */
  function LookupIndex(d: Dict, key: Key): (r: (Dict, Search))
    requires Shape(d)
    ensures Shape(r.0) && SameCounters(d, r.0)
    ensures r.1.Miss? ==> r.0 == d && r.1.insertPosition == InsertionPoint(d.table, key, d.log2)
    ensures r.1.Hit? ==> KeyAt(r.0.table, r.1.position, key)
    ensures d.numIterators > 0 ==> r.0 == d
  {
    var r := Find(d, key);
    if r.Miss? || SearchCurrent(d, key).Hit? || d.numIterators > 0 then (d, r)
    else
      RemapAtPosition(d, r.position);
      var (e, _, p) := RemapAt(d, r.position);
      (e, Hit(p))
  }

  /** The guard under which a lookup's relocation is harmless; it can be checked before the call. */
  predicate LookupSafe(d: Dict, key: Key)
    requires Shape(d)
  {
    var r := Find(d, key);
    r.Hit? && d.numIterators == 0 && !IsCurrent(d.table[r.position], r.position, d.log2) ==>
      var (e, s, i) := Lifted(d, r.position);
      NoStaleCrossing(e, s, i)
  }

  lemma CurrentHitIsCurrent(d: Dict, key: Key)
    requires Shape(d) && SearchCurrent(d, key).Hit?
    ensures var p := SearchCurrent(d, key).position; IsCurrent(d.table[p], p, d.log2)
  {
  }

  /** A lookup keeps the resize invariant exactly when its guard holds. */
  lemma LookupKeepsInvIff(d: Dict, key: Key)
    requires ResizeInv(d)
    ensures ResizeInv(LookupIndex(d, key).0) <==> LookupSafe(d, key)
  {
    var r := Find(d, key);
    if SearchCurrent(d, key).Hit? {
      CurrentHitIsCurrent(d, key);
    } else if r.Hit? && d.numIterators == 0 && !IsCurrent(d.table[r.position], r.position, d.log2) {
      var (e, s, i) := Lifted(d, r.position);
      RemoveAtKeepsInv(d, r.position);
      RelocateKeepsInvIff(e, s, i);
    }
  }

  /** With one outstanding resize, a stale entry sits in the lower half and belongs in the upper. */
  lemma StaleIsInLowerHalf(h: Home, log2: nat)
    requires PlacedWithin(h, log2, 1) && h.bucket != KeyBucket(h.entry.key, log2)
    ensures log2 > 0 && h.bucket < Pow2(log2 - 1) <= KeyBucket(h.entry.key, log2)
  {
    BucketDoubles(h.entry.key, log2 - 1);
  }

  /** With one outstanding resize, everything from an upper-half slot on is current. */
  lemma UpperHalfIsCurrent(d: Dict, i: nat, j: nat)
    requires ResizeInv(d) && d.remaps == 1 && d.log2 > 0 && Pow2(d.log2 - 1) <= i <= j < |d.table|
    requires i < |d.table| && d.table[i].Used? ==> Bucket(d.table, i) >= Pow2(d.log2 - 1)
    ensures IsCurrent(d.table[j], j, d.log2)
  {
    if d.table[j].Used? && !IsCurrent(d.table[j], j, d.log2) {
      StaleIsInLowerHalf(HomeOf(d.table, j), d.log2);
      NoHole(d.table, i, j);
      assert false;
    }
  }

  /** Every entry displaced by a relocation with one outstanding resize is already current. */
  lemma OneResizeDisplacesCurrent(d: Dict, p: nat)
    requires ResizeInv(d) && d.remaps == 1 && p < |d.table| && d.table[p].Used?
    requires !IsCurrent(d.table[p], p, d.log2)
    ensures var (e, s, i) := Lifted(d, p); CurrentFrom(e.table, d.log2, i)
  {
    var (e, s, i) := Lifted(d, p);
    RemoveAtKeepsInv(d, p);
    StaleIsInLowerHalf(HomeOf(d.table, p), d.log2);
    forall j | 0 <= j < |e.table| && i <= j ensures IsCurrent(e.table[j], j, d.log2) {
      UpperHalfIsCurrent(e, i, j);
    }
  }

  /** At most one outstanding resize makes every lookup safe. */
  lemma OneResizeIsSafe(d: Dict, key: Key)
    requires ResizeInv(d) && d.remaps <= 1
    ensures LookupSafe(d, key)
  {
    var r := Find(d, key);
    if r.Hit? && !IsCurrent(d.table[r.position], r.position, d.log2) {
      var (e, s, i) := Lifted(d, r.position);
      assert PlacedWithin(HomeOf(d.table, r.position), d.log2, d.remaps);
      OneResizeDisplacesCurrent(d, r.position);
      CarriedIsCurrent(e.table, s, i, d.log2, e.remapEnd);
    }
  }

  /** Relocating entries never changes the map, and the key ends up where the lookup says. */
  lemma LookupIndexCorrect(d: Dict, m: map<Key, Pointer>, key: Key)
    requires ResizeInv(d) && Represents(d.table, m)
    ensures var (e, r) := LookupIndex(d, key);
            && Represents(e.table, m)
            && (r.Hit? <==> key in m)
            && (r.Hit? ==> e.table[r.position].entry == Entry(key, m[key]))
  {
    FindIsLinearSearch(d, m, key);
    var (e, r) := LookupIndex(d, key);
    if r.Hit? {
      var p := Find(d, key).position;
      if e != d {
        MoveKeepsMap(d, m, p);
      }
      KeyAtBinding(e.table, m, r.position);
    }
  }

  lemma MoveKeepsMap(d: Dict, m: map<Key, Pointer>, p: nat)
    requires Shape(d) && Represents(d.table, m) && p < |d.table| && d.table[p].Used?
    ensures Represents(RemapAt(d, p).0.table, m)
  {
    if !IsCurrent(d.table[p], p, d.log2) {
      RemapAtHomes(d, p);
      HomeOfSlot(d.table, p);
      var g, h := HomeOf(d.table, p), CurrentHome(d.table[p].entry, d.log2);
      BindingsReplace(Homes(d.table), m, Homes(RemapAt(d, p).0.table), g, h);
      assert m[h.entry.key := h.entry.value] == m;
    }
  }

  /** A moved entry is found by the search of the current size, unless the move grew the table. */
  lemma MovedIsFound(d: Dict, m: map<Key, Pointer>, p: nat)
    requires Shape(d) && Represents(d.table, m) && p < |d.table| && d.table[p].Used?
    requires !IsCurrent(d.table[p], p, d.log2)
    ensures var (e, _, q) := RemapAt(d, p); e.log2 == d.log2 ==> SearchCurrent(e, d.table[p].entry.key) == Hit(q)
  {
    var key := d.table[p].entry.key;
    var (e, _, q) := RemapAt(d, p);
    var (g, s, i) := Lifted(d, p);
    RelocateWrites(g, s, i);
    MoveKeepsMap(d, m, p);
    if e.log2 == d.log2 {
      if SearchCurrent(e, key).Miss? {
        MissMeansAbsent(e.table, key, KeyBucket(key, e.log2), |e.table|, q);
        assert false;
      }
      UniquePosition(e.table, m, key, q, SearchCurrent(e, key).position);
    }
  }

  /** An unsafe lookup found a stale entry and moved it without growing the table. */
  lemma UnsafeLookupMoves(d: Dict, key: Key) returns (p: nat)
    requires Shape(d) && !LookupSafe(d, key)
    ensures KeyAt(d.table, p, key) && !IsCurrent(d.table[p], p, d.log2) && d.numIterators == 0
    ensures Find(d, key) == Hit(p) && p <= d.remapEnd
    ensures var (e, _, q) := RemapAt(d, p); e.log2 == d.log2 && LookupIndex(d, key) == (e, Hit(q))
    ensures var (g, s, i) := Lifted(d, p);
            !NoStaleCrossing(g, s, i) && LookupIndex(d, key) == (Relocate(g, s, i).0, Hit(i))
  {
    p := Find(d, key).position;
    if SearchCurrent(d, key).Hit? {
      CurrentHitIsCurrent(d, key);
    }
  }

  lemma SafeLookupIsStable(d: Dict, m: map<Key, Pointer>, key: Key)
    requires ResizeInv(d) && Represents(d.table, m) && LookupSafe(d, key)
    ensures var (e, r) := LookupIndex(d, key); r.Hit? ==> Find(e, key) == r
  {
    var (e, r) := LookupIndex(d, key);
    LookupIndexCorrect(d, m, key);
    LookupKeepsInvIff(d, key);
    if r.Hit? {
      FindIsComplete(e, key, r.position);
      UniquePosition(e.table, m, key, r.position, Find(e, key).position);
    }
  }

  /** After any lookup, safe or not, looking again finds the key at the position returned. */
  lemma LookupIsStable(d: Dict, m: map<Key, Pointer>, key: Key)
    requires ResizeInv(d) && Represents(d.table, m)
    ensures var (e, r) := LookupIndex(d, key); r.Hit? ==> Find(e, key) == r
  {
    if LookupSafe(d, key) {
      SafeLookupIsStable(d, m, key);
    } else {
      var p := UnsafeLookupMoves(d, key);
      MovedIsFound(d, m, p);
    }
  }

  /** An unsafe lookup relocated the key by a chain, which removing the key again undoes. */
  lemma RemovalUndoesUnsafeLookup(d: Dict, key: Key)
    requires Shape(d) && !LookupSafe(d, key)
    ensures var p := Find(d, key).position; var (e, r) := LookupIndex(d, key);
            && p < |d.table| && d.table[p].Used? && r.Hit? && r.position < |e.table| && e.table[r.position].Used?
            && RemoveAt(e, r.position) == RemoveAt(d, p)
            && e.table[r.position].entry == d.table[p].entry
  {
    var p := UnsafeLookupMoves(d, key);
    var (g, s, i) := Lifted(d, p);
    RelocateWrites(g, s, i);
    InsertThenRemove(g.table, s, i);
  }

  lemma LookupPlaced(d: Dict, key: Key)
    requires ResizeInv(d) && !LookupSafe(d, key)
    ensures var e := LookupIndex(d, key).0; AllPlaced(e.table, e.log2, e.remaps) && e.remapEnd == d.remapEnd
  {
    var p := UnsafeLookupMoves(d, key);
    var (e, s, i) := Lifted(d, p);
    RemoveAtKeepsInv(d, p);
    RelocatePlaced(e, s, i);
  }

  /** A stale entry above `remapEnd` is out of reach: it is bound, but no search finds it. */
  lemma StaleAboveIsLost(d: Dict, m: map<Key, Pointer>, j: nat)
    requires Shape(d) && Represents(d.table, m)
    requires d.remapEnd < j < |d.table| && d.table[j].Used? && !IsCurrent(d.table[j], j, d.log2)
    ensures d.table[j].entry.key in m && Find(d, d.table[j].entry.key).Miss?
  {
    var k := d.table[j].entry.key;
    KeyAtBinding(d.table, m, j);
    if Find(d, k).Hit? {
      UniquePosition(d.table, m, k, j, Find(d, k).position);
      if SearchCurrent(d, k).Hit? {
        CurrentHitIsCurrent(d, k);
      }
      assert false;
    }
  }

  lemma StrayIsLost(d: Dict, m: map<Key, Pointer>)
    requires Shape(d) && Represents(d.table, m) && !CurrentFrom(d.table, d.log2, d.remapEnd + 1)
    ensures exists k :: k in m && Find(d, k).Miss?
  {
    var j :| 0 <= j < |d.table| && d.remapEnd + 1 <= j && !IsCurrent(d.table[j], j, d.log2);
    StaleAboveIsLost(d, m, j);
  }

  lemma AllFound(d: Dict, m: map<Key, Pointer>)
    requires ResizeInv(d) && Represents(d.table, m)
    ensures forall k :: k in m ==> Find(d, k).Hit?
  {
    forall k | k in m ensures Find(d, k).Hit? {
      FindIsLinearSearch(d, m, k);
    }
  }

  /** After a lookup every key of the map can still be found exactly when the lookup was safe. */
  lemma LookupLosesNoKeyIff(d: Dict, m: map<Key, Pointer>, key: Key)
    requires ResizeInv(d) && Represents(d.table, m)
    ensures (forall k :: k in m ==> Find(LookupIndex(d, key).0, k).Hit?) <==> LookupSafe(d, key)
  {
    var e := LookupIndex(d, key).0;
    LookupIndexCorrect(d, m, key);
    LookupKeepsInvIff(d, key);
    if LookupSafe(d, key) {
      AllFound(e, m);
    } else {
      LookupPlaced(d, key);
      StrayIsLost(e, m);
    }
  }
}
