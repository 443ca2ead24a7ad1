/**
 An unsafe insertion that loses nothing: in a table of eight buckets doubled twice, the lookup carries
 an entry past `remapEnd`, and the pass after it pulls that entry back.

 The keys are those of the losing run: key 10 is the one inserted over, key 12 the stray.
 */
module DictRescue {
  import opened Arithmetic
  import opened DictTable
  import opened DictChains
  import opened DictResize
  import opened DictRecovery
  import opened DictSearch
  import opened DictMap
  import opened DictGaps
  import opened DictLimits

  /** Key 10 is two sizes behind, keys 12 and 13 are one size behind, the others are current. */
  const ORDER: seq<nat> := [10, 2, 3, 12, 13, 11]
  const DISTANCES: seq<nat> := [0, 0, 1, 0, 1, 2]
  const FILLED: nat := 6

  function SlotAt(p: nat): Slot
    requires p < FILLED
  {
    Used(EntryOf(ORDER[p]), DISTANCES[p])
  }

  /** Eleven slots, the first `n` of them filled. */
  function Mixed(n: nat): (t: Table)
    requires n <= FILLED
    ensures |t| == 11 && forall p :: 0 <= p < 11 ==> t[p] == if p < n then SlotAt(p) else Empty
  {
    seq(11, p requires 0 <= p < 11 => if p < n then SlotAt(p) else Empty)
  }

  function Held(n: nat): map<Key, Pointer>
    requires n <= FILLED
  {
    if n == 0 then map[] else Held(n - 1)[KeyOf(ORDER[n - 1]) := ORDER[n - 1] + 1]
  }

  function Rescue(): Dict {
    Dict(3, Mixed(FILLED), 2, 5, 6, 6, 6, 0)
  }

  lemma SmallPowers(u: nat, b: nat)
    requires b < 128
    ensures LowBits(128 * u + b, 1) == b % 2 && LowBits(128 * u + b, 2) == b % 4 && LowBits(128 * u + b, 3) == b % 8
  {
    var x := 128 * u + b;
    LowBitsIsModulo(x, 1);
    LowBitsIsModulo(x, 2);
    LowBitsIsModulo(x, 3);
    assert Pow2(1) == 2 && Pow2(2) == 4 && Pow2(3) == 8;
    DivModUnique(x, 2, 64 * u + b / 2, b % 2);
    DivModUnique(x, 4, 32 * u + b / 4, b % 4);
    DivModUnique(x, 8, 16 * u + b / 8, b % 8);
  }

  /** Buckets of the keys for two, four and eight buckets. */
  lemma SmallBuckets(i: nat)
    requires i < KEYS
    ensures KeyBucket(KeyOf(i), 1) == Number(i) % 2
    ensures KeyBucket(KeyOf(i), 2) == Number(i) % 4
    ensures KeyBucket(KeyOf(i), 3) == Number(i) % 8
  {
    var b := Number(i);
    var u := HashInverts(b);
    SmallPowers(u, b);
    assert KeyOf(i).hash == b * UNMULTIPLIER % 128;
  }

  lemma BucketsOf(i: nat, b: nat)
    requires i < KEYS && Number(i) == b
    ensures KeyBucket(KeyOf(i), 1) == b % 2 && KeyBucket(KeyOf(i), 2) == b % 4 && KeyBucket(KeyOf(i), 3) == b % 8
  {
    SmallBuckets(i);
  }

  lemma StaleBuckets()
    ensures KeyBucket(KeyOf(10), 1) == 0 && KeyBucket(KeyOf(10), 3) == 2
    ensures KeyBucket(KeyOf(12), 2) == 3 && KeyBucket(KeyOf(12), 3) == 7
    ensures KeyBucket(KeyOf(13), 2) == 3 && KeyBucket(KeyOf(13), 3) == 7
  {
    BucketsOf(10, 106);
    BucketsOf(12, 127);
    BucketsOf(13, 127);
  }

  lemma CurrentBuckets()
    ensures KeyBucket(KeyOf(2), 3) == 1 && KeyBucket(KeyOf(3), 3) == 1 && KeyBucket(KeyOf(11), 3) == 3
  {
    BucketsOf(2, 33);
    BucketsOf(3, 97);
    BucketsOf(11, 107);
  }

  lemma CapacityOfThree()
    ensures Capacity(3) == 11 && ThresholdEntries(3) == 11
  {
    assert Pow2(3) == 8;
  }

  // ---------- the dictionary is in order ----------

  lemma WriteBinds(t: Table, i: nat, s: Slot, m: map<Key, Pointer>)
    requires i < |t| && t[i].Empty? && s.Used? && Represents(t, m) && s.entry.key !in m
    ensures Represents(t[i := s], m[s.entry.key := s.entry.value])
  {
    var h := Home(s.entry, i - s.distance);
    var a, b := Homes(t[i := s]), Homes(t);
    forall x ensures a[x] + multiset{}[x] == b[x] + multiset{h}[x] {
      HomesUpdate(t, i, s, x);
    }
    PointwiseSums(a, multiset{}, b, multiset{h});
    assert a + multiset{} == a;
    BindingsAdd(b, m, h);
    ExtendSize(m, s.entry.key, s.entry.value);
  }

  lemma {:induction false} HeldKeys(n: nat, p: nat)
    requires n <= FILLED && p < FILLED
    ensures KeyOf(ORDER[p]) in Held(n) <==> p < n
  {
    if n > 0 {
      HeldKeys(n - 1, p);
      assert KeyOf(ORDER[p]).bytes[0] == ORDER[p] && KeyOf(ORDER[n - 1]).bytes[0] == ORDER[n - 1];
    }
  }

  lemma {:induction false} MixedRepresents(n: nat)
    requires n <= FILLED
    ensures Represents(Mixed(n), Held(n)) && |Held(n)| == n
  {
    if n == 0 {
      CapacityOfThree();
      assert Mixed(0) == Empties(11);
      EmptyTableInv(3, Dict(3, Mixed(0), 0, -1, 0, 0, 0, 0));
    } else {
      MixedRepresents(n - 1);
      MixedGrows(n - 1);
    }
  }

  lemma MixedNext(p: nat)
    requires p < FILLED
    ensures Mixed(p)[p := SlotAt(p)] == Mixed(p + 1) && Mixed(p)[p] == Empty
  {
  }

  lemma MixedGrows(p: nat)
    requires p < FILLED && Represents(Mixed(p), Held(p)) && |Held(p)| == p
    ensures Represents(Mixed(p + 1), Held(p + 1)) && |Held(p + 1)| == p + 1
  {
    HeldKeys(p, p);
    MixedNext(p);
    GrowOne(Mixed(p), p, SlotAt(p), Held(p), Mixed(p + 1), Held(p + 1));
  }

  lemma GrowOne(t: Table, p: nat, s: Slot, m: map<Key, Pointer>, u: Table, m': map<Key, Pointer>)
    requires p < |t| && t[p].Empty? && s.Used? && s.entry.key !in m && Represents(t, m)
    requires u == t[p := s] && m' == m[s.entry.key := s.entry.value]
    ensures Represents(u, m') && |m'| == |m| + 1
  {
    WriteBinds(t, p, s, m);
    ExtendSize(m, s.entry.key, s.entry.value);
  }

  lemma MixedClustered()
    ensures Clustered(Mixed(FILLED))
  {
    var t := Mixed(FILLED);
    forall p | 0 <= p < |t| ensures LinkedAt(t, p) {
    }
  }

  lemma RescuePlaced()
    ensures AllPlaced(Mixed(FILLED), 3, 2)
  {
    var t := Mixed(FILLED);
    StaleBuckets();
    CurrentBuckets();
    forall p | 0 <= p < |t| && t[p].Used? ensures PlacedWithin(HomeOf(t, p), 3, 2) {
      assert p == 0 ==> PlacedWithin(HomeOf(t, p), 1, 0) && PlacedWithin(HomeOf(t, p), 2, 1);
      assert p == 3 || p == 4 ==> PlacedWithin(HomeOf(t, p), 2, 1);
    }
  }

  lemma RescueInv()
    ensures ResizeInv(Rescue())
  {
    MixedClustered();
    RescuePlaced();
    CapacityOfThree();
  }

  lemma RescueStands()
    ensures Stands(Rescue(), Held(FILLED))
  {
    MixedRepresents(FILLED);
    RescueInv();
    assert ThresholdEntries(3) == 11 by { CapacityOfThree(); }
  }

  // ---------- the lookup strays, the pass recovers ----------

  /** What matters of the dictionary. */
  predicate Crossing(d: Dict) {
    && Shape(d) && d.log2 == 3 && d.remaps == 2 && d.remapEnd == 5 && d.numIterators == 0 && |d.table| == 11
    && (forall p :: 0 <= p < FILLED ==> d.table[p] == SlotAt(p))
    && (forall p :: FILLED <= p < 11 ==> d.table[p] == Empty)
  }

  /** Key 10 goes to slot 3, and key 12 from there over its run to slot 6, past `remapEnd`. */
  function Crossed(d: Dict): Dict
    requires Crossing(d)
  {
    d.(table := d.table[0 := Empty][3 := Used(EntryOf(10), 1)][6 := Used(EntryOf(12), 3)])
  }

  lemma KeyTenLifts(d: Dict)
    requires Crossing(d)
    ensures Lifted(d, 0) == (d.(table := d.table[0 := Empty]), Used(EntryOf(10), 1), 3) && !IsCurrent(d.table[0], 0, 3)
  {
    StaleBuckets();
    var t := d.table[0 := Empty];
    assert NothingToPull(d.table, 0) && RemoveChain(d.table, 0).0 == t;
    EndOfClusterIs(t, 2, 2, 3);
  }

  lemma KeyTenMoves(d: Dict)
    requires Crossing(d)
    ensures RemapAt(d, 0).0 == Crossed(d)
    ensures var (e, s, i) := Lifted(d, 0); Carried(e.table, s, i, 5) == (Used(EntryOf(12), 3), 6)
  {
    KeyTenLifts(d);
    var (e, s, i) := Lifted(d, 0);
    var t := e.table;
    assert t[3] == SlotAt(3) && t[4] == SlotAt(4) && t[5] == SlotAt(5);
    DisplaceOver(t, s, i, 6);
    DisplacedFits(t, s, i);
    EndOfRunIs(t, 3, 3, 6);
  }

  lemma KeyTwelveIsStale()
    ensures !IsCurrent(Used(EntryOf(12), 3), 6, 3) && !IsCurrent(Used(EntryOf(13), 1), 4, 3)
    ensures IsCurrent(Used(EntryOf(11), 2), 5, 3)
  {
    StaleBuckets();
    CurrentBuckets();
  }

  lemma LookupCrosses(d: Dict, m: map<Key, Pointer>)
    requires Crossing(d) && Stands(d, m)
    ensures !LookupSafe(d, KeyOf(10)) && StrayOf(d, KeyOf(10)) == 6
    ensures LookupIndex(d, KeyOf(10)) == (Crossed(d), Hit(3))
  {
    KeyTenLifts(d);
    KeyTenMoves(d);
    KeyTwelveIsStale();
    LookupMoves(d, m, KeyOf(10), 0);
  }

  /** What the second turn of the pass finds. */
  predicate SecondTurn(u: Dict) {
    && Shape(u) && u.log2 == 3 && u.remapEnd == 4 && |u.table| == 11
    && u.table[4] == Used(EntryOf(13), 1) && u.table[5] == Used(EntryOf(11), 2)
    && u.table[6] == Used(EntryOf(12), 3) && u.table[7] == Empty
  }

  lemma SecondTurnMoves(u: Dict)
    requires SecondTurn(u)
    ensures NeedsMove(u) && Lifted(u, 4).2 >= 7
  {
    KeyTwelveIsStale();
    assert KeyBucket(KeyOf(13), 3) == 7 by { StaleBuckets(); }
  }

  lemma SecondTurnTail(u: Dict)
    requires SecondTurn(u)
    ensures !NothingToPull(u.table, 4) && TailOfRun(u.table, 5) == 6
  {
    EndOfRunIs(u.table, 3, 5, 7);
  }

  /** Key 13 is taken out of slot 4, and key 12 is pulled into it. */
  lemma SecondTurnPulls(u: Dict)
    requires SecondTurn(u)
    ensures NeedsMove(u) && PullsBack(u, 6)
  {
    SecondTurnMoves(u);
    SecondTurnTail(u);
    PullsBackIf(u, 6);
  }

  lemma PassRescues(d: Dict, value: Pointer)
    requires Crossing(d) && Shape(Crossed(d))
    ensures Recovers(SetValue(Crossed(d), 3, value), 6, REMAP_ENTRIES)
  {
    var u := SetValue(Crossed(d), 3, value);
    KeyTwelveIsStale();
    assert u.table[5] == SlotAt(5) && u.table[4] == SlotAt(4) && u.table[7] == Empty;
    assert !NeedsMove(u);
    var v := u.(remapEnd := 4);
    SecondTurnPulls(v);
    assert Recovers(v, 6, REMAP_ENTRIES);
  }

  lemma InsertionRecovers(d: Dict, m: map<Key, Pointer>, value: Pointer)
    requires Crossing(d) && Stands(d, m)
    ensures !Safe(d, KeyOf(10)) && InsertSafe(d, KeyOf(10), value)
    ensures Stands(Insert(d, KeyOf(10), value).0, m[KeyOf(10) := value])
  {
    LookupCrosses(d, m);
    PassRescues(d, value);
    InsertIsMapUpdate(d, m, KeyOf(10), value);
  }

  lemma RescueInShape()
    ensures Crossing(Rescue())
  {
    MixedClustered();
    CapacityOfThree();
  }

  lemma RescueCrosses() returns (d: Dict)
    ensures Crossing(d) && Stands(d, Held(FILLED))
  {
    RescueInShape();
    RescueStands();
    d := Rescue();
  }

  /** There is an unsafe insertion that is safe after all: its pass brings the stray entry back. */
  lemma UnsafeInsertionRecovers(value: Pointer) returns (d: Dict, m: map<Key, Pointer>, key: Key)
    ensures Stands(d, m) && d.numIterators == 0 && !Safe(d, key) && InsertSafe(d, key, value)
    ensures Stands(Insert(d, key, value).0, m[key := value])
  {
    d := RescueCrosses();
    m, key := Held(FILLED), KeyOf(10);
    InsertionRecovers(d, m, value);
  }
}
