/**
 Whole runs of the dictionary: agreement with a finite map step by step, exactly when no key gets
 lost on the way, and progress of the bulk remap.
 */
module DictRuns {
  import opened Arithmetic
  import opened DictTable
  import opened DictChains
  import opened DictResize
  import opened DictSearch
  import opened DictMap

  datatype Op = DoLookup(key: Key) | DoInsert(key: Key, value: Pointer) | DoRemove(key: Key)

  /** What a caller sees of one operation: the returned pointer and `Length()` afterwards. */
  datatype Seen = Seen(returned: Pointer, length: int)

  function Step(d: Dict, op: Op): (r: (Dict, Pointer))
    requires WellFormed(d) && d.numIterators == 0
    ensures WellFormed(r.0) && r.0.numIterators == 0
  {
    match op
    case DoLookup(key) => Lookup(d, key)
    case DoInsert(key, value) => Insert(d, key, value)
    case DoRemove(key) => Remove(d, key)
  }

  function Run(d: Dict, ops: seq<Op>): (r: (Dict, seq<Seen>))
    requires WellFormed(d) && d.numIterators == 0
    ensures WellFormed(r.0) && r.0.numIterators == 0
    ensures |r.1| == |ops|
    decreases |ops|
  {
    if |ops| == 0 then (d, [])
    else
      var (e, v) := Step(d, ops[0]);
      var (f, rest) := Run(e, ops[1..]);
      (f, [Seen(v, e.numEntries)] + rest)
  }

  function MapStep(m: map<Key, Pointer>, op: Op): map<Key, Pointer> {
    match op
    case DoLookup(key) => m
    case DoInsert(key, value) => m[key := value]
    case DoRemove(key) => m - {key}
  }

  function MapRun(m: map<Key, Pointer>, ops: seq<Op>): (r: (map<Key, Pointer>, seq<Seen>))
    ensures |r.1| == |ops|
    decreases |ops|
  {
    if |ops| == 0 then (m, [])
    else
      var n := MapStep(m, ops[0]);
      var (f, rest) := MapRun(n, ops[1..]);
      (f, [Seen(Get(m, ops[0].key), |n|)] + rest)
  }

  lemma RunFirst(d: Dict, ops: seq<Op>)
    requires WellFormed(d) && d.numIterators == 0 && |ops| > 0
    ensures var (e, v) := Step(d, ops[0]);
            Run(d, ops).0 == Run(e, ops[1..]).0 && Run(d, ops).1 == [Seen(v, e.numEntries)] + Run(e, ops[1..]).1
  {
  }

  lemma RunOne(d: Dict, op: Op)
    requires WellFormed(d) && d.numIterators == 0
    ensures Run(d, [op]).0 == Step(d, op).0 && Run(d, [op]).1[0].returned == Step(d, op).1
  {
    RunFirst(d, [op]);
    assert [op][1..] == [];
  }

  /** The last operation of a run acts on what the others leave. */
  lemma {:induction false} RunLast(d: Dict, ops: seq<Op>, op: Op, e: Dict)
    requires WellFormed(d) && d.numIterators == 0 && e == Run(d, ops).0
    ensures var r := Run(d, ops + [op]); r.0 == Step(e, op).0 && r.1[|ops|].returned == Step(e, op).1
    decreases |ops|
  {
    var all := ops + [op];
    if |ops| == 0 {
      assert all == [op];
      RunOne(d, op);
    } else {
      var d', rest := Step(d, ops[0]).0, ops[1..];
      assert all[0] == ops[0] && all[1..] == rest + [op];
      RunFirst(d, all);
      RunFirst(d, ops);
      RunLast(d', rest, op, e);
    }
  }

  lemma StepIs(d: Dict, key: Key, value: Pointer)
    requires WellFormed(d) && d.numIterators == 0
    ensures Step(d, DoInsert(key, value)) == Insert(d, key, value) && Step(d, DoLookup(key)) == Lookup(d, key)
  {
  }

  /** One operation takes `d` to `e`. */
  predicate Leads(d: Dict, op: Op, e: Dict) {
    WellFormed(d) && d.numIterators == 0 && Step(d, op).0 == e
  }

  /** The same as `RunLast`, with what the last operation leaves named. */
  lemma RunThen(d: Dict, ops: seq<Op>, op: Op, e: Dict, f: Dict)
    requires WellFormed(d) && d.numIterators == 0 && e == Run(d, ops).0 && Leads(e, op, f)
    ensures Run(d, ops + [op]).0 == f
  {
    RunLast(d, ops, op, e);
  }

  /** The first `n` operations take each of these dictionaries to the next one. */
  predicate Chained(ds: seq<Dict>, ops: seq<Op>, n: nat)
    requires n < |ds| && n <= |ops|
  {
    n > 0 ==> Chained(ds, ops, n - 1) && Leads(ds[n - 1], ops[n - 1], ds[n])
  }

  lemma {:induction false} ChainedRun(ds: seq<Dict>, ops: seq<Op>, n: nat)
    requires n < |ds| && n <= |ops| && WellFormed(ds[0]) && ds[0].numIterators == 0 && Chained(ds, ops, n)
    ensures Run(ds[0], ops[..n]).0 == ds[n]
  {
    if n > 0 {
      ChainedRun(ds, ops, n - 1);
      var prev, op := ops[..n - 1], ops[n - 1];
      Prefix(ops, n);
      RunThen(ds[0], prev, op, ds[n - 1], ds[n]);
    }
  }

  lemma Prefix<T>(s: seq<T>, n: nat)
    requires 0 < n <= |s|
    ensures s[..n] == s[..n - 1] + [s[n - 1]]
  {
  }

  lemma {:induction false} MapRunLast(m: map<Key, Pointer>, ops: seq<Op>, op: Op)
    ensures var n, r := MapRun(m, ops).0, MapRun(m, ops + [op]);
            r.0 == MapStep(n, op) && r.1[|ops|].returned == Get(n, op.key)
    decreases |ops|
  {
    var all := ops + [op];
    if |ops| > 0 {
      assert all[1..] == ops[1..] + [op];
      MapRunLast(MapStep(m, ops[0]), ops[1..], op);
    } else {
      assert all == [op] && all[1..] == [];
    }
  }

  /** The first `n` operations take each of these maps to the next one. */
  predicate MapChained(ms: seq<map<Key, Pointer>>, ops: seq<Op>, n: nat)
    requires n < |ms| && n <= |ops|
  {
    n > 0 ==> MapChained(ms, ops, n - 1) && MapStep(ms[n - 1], ops[n - 1]) == ms[n]
  }

  lemma {:induction false} MapChainedRun(ms: seq<map<Key, Pointer>>, ops: seq<Op>, n: nat)
    requires n < |ms| && n <= |ops| && MapChained(ms, ops, n)
    ensures MapRun(ms[0], ops[..n]).0 == ms[n]
  {
    if n > 0 {
      MapChainedRun(ms, ops, n - 1);
      Prefix(ops, n);
      MapRunLast(ms[0], ops[..n - 1], ops[n - 1]);
    }
  }

  /** The guard of one operation; a removal needs none. */
  predicate OpSafe(d: Dict, op: Op)
    requires WellFormed(d)
  {
    match op
    case DoLookup(key) => Safe(d, key)
    case DoInsert(key, value) => InsertSafe(d, key, value)
    case DoRemove(_) => true
  }

  /** Every operation of the run starts with its guard satisfied. */
  predicate SafeRun(d: Dict, ops: seq<Op>)
    requires WellFormed(d) && d.numIterators == 0
    decreases |ops|
  {
    |ops| > 0 ==> OpSafe(d, ops[0]) && SafeRun(Step(d, ops[0]).0, ops[1..])
  }

  /** Every lookup and insertion of the run starts with at most one outstanding resize. */
  predicate OneResizeRun(d: Dict, ops: seq<Op>)
    requires WellFormed(d) && d.numIterators == 0
    decreases |ops|
  {
    |ops| > 0 ==> (d.remaps <= 1 || ops[0].DoRemove?) && OneResizeRun(Step(d, ops[0]).0, ops[1..])
  }

  /** Every key of the map can be found. */
  ghost predicate Reachable(d: Dict, m: map<Key, Pointer>)
    requires WellFormed(d)
  {
    forall k :: k in m ==> d.table != [] && Find(d, k).Hit?
  }

  /** After every operation of the run, every key of the map can be found. */
  ghost predicate KeepsKeys(d: Dict, m: map<Key, Pointer>, ops: seq<Op>)
    requires WellFormed(d) && d.numIterators == 0
    decreases |ops|
  {
    |ops| > 0 ==>
      var e, n := Step(d, ops[0]).0, MapStep(m, ops[0]);
      Reachable(e, n) && KeepsKeys(e, n, ops[1..])
  }

  /** One operation returns what the map has, and leaves the map's dictionary exactly when safe. */
  lemma StepIsMapStep(d: Dict, m: map<Key, Pointer>, op: Op)
    requires Stands(d, m) && d.numIterators == 0
    ensures Step(d, op).1 == Get(m, op.key)
    ensures Stands(Step(d, op).0, MapStep(m, op)) <==> OpSafe(d, op)
  {
    match op
    case DoLookup(key) => LookupIsMapGet(d, m, key);
    case DoInsert(key, value) => InsertIsMapUpdate(d, m, key, value);
    case DoRemove(key) => RemoveIsMapErase(d, m, key);
  }

  lemma StandingIsReachable(d: Dict, m: map<Key, Pointer>)
    requires Stands(d, m)
    ensures Reachable(d, m)
  {
    if d.table != [] {
      AllFound(d, m);
    }
  }

  lemma StepLosesNoKeyIff(d: Dict, m: map<Key, Pointer>, op: Op)
    requires Stands(d, m) && d.numIterators == 0
    ensures Reachable(Step(d, op).0, MapStep(m, op)) <==> OpSafe(d, op)
  {
    StepIsMapStep(d, m, op);
    if OpSafe(d, op) {
      StandingIsReachable(Step(d, op).0, MapStep(m, op));
    } else if op.DoInsert? {
      InsertLosesNoKeyIff(d, m, op.key, op.value);
    } else {
      LookupLosesNoKeyIff(d, m, op.key);
    }
  }

  /** Along every safe run a caller cannot tell the dictionary from the finite map. */
  lemma {:induction false} RunIsMapRun(d: Dict, m: map<Key, Pointer>, ops: seq<Op>)
    requires Stands(d, m) && d.numIterators == 0 && SafeRun(d, ops)
    ensures Run(d, ops).1 == MapRun(m, ops).1
    ensures Stands(Run(d, ops).0, MapRun(m, ops).0)
    decreases |ops|
  {
    if |ops| > 0 {
      StepIsMapStep(d, m, ops[0]);
      RunIsMapRun(Step(d, ops[0]).0, MapStep(m, ops[0]), ops[1..]);
    }
  }

  /** A run is safe exactly when it never puts a key of the map out of reach. */
  lemma {:induction false} RunLosesNoKeyIff(d: Dict, m: map<Key, Pointer>, ops: seq<Op>)
    requires Stands(d, m) && d.numIterators == 0
    ensures KeepsKeys(d, m, ops) <==> SafeRun(d, ops)
    decreases |ops|
  {
    if |ops| > 0 {
      StepLosesNoKeyIff(d, m, ops[0]);
      StepIsMapStep(d, m, ops[0]);
      if OpSafe(d, ops[0]) {
        RunLosesNoKeyIff(Step(d, ops[0]).0, MapStep(m, ops[0]), ops[1..]);
      }
    }
  }

  /** At most one outstanding resize at the start of lookups and insertions makes the run safe. */
  lemma {:induction false} OneResizeRunIsSafe(d: Dict, m: map<Key, Pointer>, ops: seq<Op>)
    requires Stands(d, m) && d.numIterators == 0 && OneResizeRun(d, ops)
    ensures SafeRun(d, ops)
    decreases |ops|
  {
    if |ops| > 0 {
      if d.remaps <= 1 {
        OneResizeOperationIsSafe(d, m, ops[0].key);
      }
      StepIsMapStep(d, m, ops[0]);
      OneResizeRunIsSafe(Step(d, ops[0]).0, MapStep(m, ops[0]), ops[1..]);
    }
  }

  /** `Dictionary(UNORDERED, 0)`: no table, no entries. */
  function NewDict(): Dict {
    Dict(0, [], 0, -1, 0, 0, 0, 0)
  }

  /** `Dictionary(UNORDERED, initialSize)`. */
  function NewDictOf(initialSize: int): (d: Dict)
    ensures WellFormed(d) && d.numIterators == 0
  {
    if initialSize > 0 then
      var log2 := FloorLog2(initialSize);
      NewDict().(log2 := log2, table := Empties(Capacity(log2)))
    else NewDict()
  }

  lemma NewDictStands(initialSize: int)
    ensures Stands(NewDictOf(initialSize), map[])
  {
    OneSizeUpIsEnough(NewDictOf(initialSize).log2);
    if initialSize > 0 {
      EmptyTableInv(NewDictOf(initialSize).log2, NewDictOf(initialSize));
    }
  }

  /** From a new dictionary of any size, every safe run is a run of the map. */
  lemma NewDictRunsAsMap(initialSize: int, ops: seq<Op>)
    requires SafeRun(NewDictOf(initialSize), ops)
    ensures Run(NewDictOf(initialSize), ops).1 == MapRun(map[], ops).1
    ensures Stands(Run(NewDictOf(initialSize), ops).0, MapRun(map[], ops).0)
  {
    NewDictStands(initialSize);
    RunIsMapRun(NewDictOf(initialSize), map[], ops);
  }

  /** The stored distance fits 16 bits and is never the empty marker while the capacity is below it. */
  lemma DistanceFitsSixteenBits(d: Dict, i: nat)
    requires Shape(d) && Capacity(d.log2) < 0xFFFF && i < |d.table| && d.table[i].Used?
    ensures d.table[i].distance < 0xFFFF
  {
    DistanceBound(d.table, i);
  }

  // ---------- progress of the bulk remap ----------

  function StaleHomes(hs: multiset<Home>, log2: nat): set<Home> {
    set h | h in hs && h.bucket != KeyBucket(h.entry.key, log2)
  }

  lemma MoveLowersStale(hs: multiset<Home>, hs': multiset<Home>, g: Home, log2: nat)
    requires hs' + multiset{g} == hs + multiset{CurrentHome(g.entry, log2)}
    requires hs[g] == 1 && g.bucket != KeyBucket(g.entry.key, log2)
    ensures |StaleHomes(hs', log2)| + 1 == |StaleHomes(hs, log2)|
  {
    var q := CurrentHome(g.entry, log2);
    forall h ensures h in StaleHomes(hs', log2) <==> h in StaleHomes(hs, log2) - {g} {
      SumMultiplicity(hs', multiset{g}, h);
      SumMultiplicity(hs, multiset{q}, h);
    }
    assert StaleHomes(hs', log2) == StaleHomes(hs, log2) - {g};
    assert g in StaleHomes(hs, log2);
  }

  lemma RemapLowersStale(d: Dict, m: map<Key, Pointer>, p: nat)
    requires Shape(d) && Represents(d.table, m) && p < |d.table| && d.table[p].Used?
    requires !IsCurrent(d.table[p], p, d.log2)
    ensures StaleCount(RemapAt(d, p).0.table, d.log2) + 1 == StaleCount(d.table, d.log2)
  {
    var t, u := d.table, RemapAt(d, p).0.table;
    var g := HomeOf(t, p);
    assert HomeAt(t[p], p) == multiset{g};
    HomeOfSlot(t, p);
    RemapAtHomes(d, p);
    MoveLowersStale(Homes(t), Homes(u), g, d.log2);
  }

  lemma StepLowersStale(d: Dict, m: map<Key, Pointer>)
    requires Shape(d) && Represents(d.table, m) && d.remapEnd >= 0 && NeedsMove(d)
    ensures StaleCount(BulkStep(d).table, d.log2) + 1 == StaleCount(d.table, d.log2)
  {
    RemapLowersStale(d, m, d.remapEnd);
  }

  function StaleCount(t: Table, log2: nat): nat {
    |StaleHomes(Homes(t), log2)|
  }

  /** Without growth, each move of the bulk pass lowers the number of stale entries by one. */
  lemma {:induction false} MovesLowerStale(d: Dict, m: map<Key, Pointer>, left: nat, r: (Dict, nat))
    requires Shape(d) && Represents(d.table, m) && r == BulkRemap(d, left) && r.0.log2 == d.log2
    ensures StaleCount(r.0.table, d.log2) + r.1 == StaleCount(d.table, d.log2)
    decreases left, d.remapEnd + 1
  {
    if d.remapEnd < 0 || left == 0 {
      PassEnds(d, left);
    } else {
      var e, left', rest := AnyTurn(d, m, left, r);
      MovesLowerStale(e, m, left', rest);
    }
  }

  /** One turn of a pass with outcome `r`: the rest of it starts from `e` and has outcome `rest`. */
  ghost predicate Turn(d: Dict, m: map<Key, Pointer>, left: nat, r: (Dict, nat), e: Dict, left': nat, rest: (Dict, nat)) {
    && Shape(e) && Represents(e.table, m) && e.log2 >= d.log2 && rest == BulkRemap(e, left')
    && r.0 == rest.0 && left' <= left && (left' == left ==> e.remapEnd < d.remapEnd)
    && StaleCount(e.table, d.log2) + r.1 == StaleCount(d.table, d.log2) + rest.1
  }

  lemma AnyTurn(d: Dict, m: map<Key, Pointer>, left: nat, r: (Dict, nat))
    returns (e: Dict, left': nat, rest: (Dict, nat))
    requires Shape(d) && Represents(d.table, m) && r == BulkRemap(d, left)
    requires d.remapEnd >= 0 && left > 0
    ensures Turn(d, m, left, r, e, left', rest)
  {
    if NeedsMove(d) {
      e, left', rest := MoveTurn(d, m, left, r);
    } else {
      e, left', rest := SkipTurn(d, m, left, r);
    }
  }

  lemma PassEnds(d: Dict, left: nat)
    requires Shape(d) && (d.remapEnd < 0 || left == 0)
    ensures var r := BulkRemap(d, left); r.0.table == d.table && r.1 == 0
  {
  }

  lemma SkipTurn(d: Dict, m: map<Key, Pointer>, left: nat, r: (Dict, nat))
    returns (e: Dict, left': nat, rest: (Dict, nat))
    requires Shape(d) && Represents(d.table, m) && r == BulkRemap(d, left)
    requires d.remapEnd >= 0 && left > 0 && !NeedsMove(d)
    ensures Turn(d, m, left, r, e, left', rest)
  {
    e, left', rest := BulkStep(d), left, r;
  }

  lemma MoveTurn(d: Dict, m: map<Key, Pointer>, left: nat, r: (Dict, nat))
    returns (e: Dict, left': nat, rest: (Dict, nat))
    requires Shape(d) && Represents(d.table, m) && r == BulkRemap(d, left)
    requires d.remapEnd >= 0 && left > 0 && NeedsMove(d)
    ensures Turn(d, m, left, r, e, left', rest)
  {
    StepLowersStale(d, m);
    MoveKeepsMap(d, m, d.remapEnd);
    left' := left - 1;
    e, rest := TakeTurn(d, left);
  }

  lemma TakeTurn(d: Dict, left: nat) returns (e: Dict, rest: (Dict, nat))
    requires Shape(d) && d.remapEnd >= 0 && left > 0 && NeedsMove(d)
    ensures e == BulkStep(d) == RemapAt(d, d.remapEnd).0 && rest == BulkRemap(e, left - 1)
    ensures BulkRemap(d, left) == (rest.0, rest.1 + 1)
  {
    e := BulkStep(d);
    rest := BulkRemap(e, left - 1);
  }

  /**
   One pass of `Remap()`: it finishes the resize or relocates exactly `REMAP_ENTRIES` entries, so
   with fewer stale entries than that and no growth inside it finishes.
   */
  lemma RemapPassProgress(d: Dict, m: map<Key, Pointer>)
    requires ResizeInv(d) && Represents(d.table, m) && d.numIterators == 0
    ensures var e, moves := Remap(d), BulkRemap(d, REMAP_ENTRIES).1;
            && ResizeInv(e) && Represents(e.table, m)
            && (moves == REMAP_ENTRIES || (e.remapEnd < 0 && e.remaps == 0 && StaleHomes(Homes(e.table), e.log2) == {}))
            && (e.log2 == d.log2 && StaleCount(d.table, d.log2) < REMAP_ENTRIES ==> e.remapEnd < 0)
  {
    BulkRemapKeepsInv(d, REMAP_ENTRIES);
    BulkRemapRepresents(d, m, REMAP_ENTRIES);
    if Remap(d).log2 == d.log2 {
      MovesLowerStale(d, m, REMAP_ENTRIES, BulkRemap(d, REMAP_ENTRIES));
    }
    var e := Remap(d);
    if e.remapEnd < 0 {
      forall h | h in Homes(e.table) ensures h.bucket == KeyBucket(h.entry.key, e.log2) {
        var i := SlotOfHome(e.table, h);
        assert IsCurrent(e.table[i], i, e.log2);
      }
    }
  }
}
