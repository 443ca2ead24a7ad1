/**
 The dictionary object itself: its methods work in place on the slot array, and each is proved
 equal to the step of the same name on the value of all the fields.
 */
module OpenDict {
  import opened Arithmetic
  import opened DictTable
  import opened DictChains
  import opened DictResize
  import opened DictSearch
  import opened DictMap
  import Runs = DictRuns
  import Keys = DictKeys
  import Iter = DictIteration

  /** The non-robust part of the source's cookie: the next position, -1 before the first call. */
  class IterCookie {
    var next: int

    constructor ()
      ensures next == -1
    {
      next := -1;
    }
  }

  class Dictionary {
    var table: array?<Slot>
    var log2Buckets: nat
    var remaps: nat
    var remapEnd: int
    var numEntries: int
    var maxEntries: int
    var cumEntries: nat
    var numIterators: nat

    function Slots(): Table
      reads this, table
    {
      if table == null then [] else table[..]
    }

    /** All the fields as one value. */
    function State(): Dict
      reads this, table
    {
      Dict(log2Buckets, Slots(), remaps, remapEnd, numEntries, maxEntries, cumEntries, numIterators)
    }

    ghost predicate Valid()
      reads this, table
    {
      WellFormed(State()) && (table != null ==> table.Length > 0)
    }

    /** A valid dictionary whose table has been allocated. */
    ghost predicate Ready()
      reads this, table
    {
      table != null && Shape(State())
    }

    // ---------- construction ----------

    static method Log2(num: nat) returns (i: nat)
      ensures i == FloorLog2(num)
      ensures if num == 0 then i == 0 else Pow2(i) <= num < Pow2(i + 1)
    {
      i := 0;
      var n: nat := num / 2;
      while n != 0
        invariant FloorLog2(num) == i + (if n == 0 then 0 else 1 + FloorLog2(n))
        decreases n
      {
        i := i + 1;
        n := n / 2;
      }
      if num > 0 {
        FloorLog2Bounds(num);
      }
    }

    constructor (initialSize: int)
      ensures Valid() && (table != null ==> fresh(table))
      ensures State() == Runs.NewDictOf(initialSize) && Stands(State(), map[])
      ensures initialSize > 0 ==> Ready() && Pow2(log2Buckets) <= initialSize < Pow2(log2Buckets + 1)
    {
      remaps, log2Buckets, numIterators, remapEnd := 0, 0, 0, -1;
      numEntries, maxEntries, cumEntries, table := 0, 0, 0, null;
      new;
      Runs.NewDictStands(initialSize);
      if initialSize > 0 {
        var n := Log2(initialSize);
        log2Buckets := n;
        Init();
      }
    }

    /** Allocate the table with every slot empty. */
    method Init()
      requires Valid() && table == null
      modifies this`table
      ensures Ready() && fresh(table)
      ensures State() == Initialized(old(State()))
    {
      var n := Capacity(log2Buckets);
      table := new Slot[n];
      for i := n downto 0
        invariant table != null && fresh(table) && table.Length == n
        invariant forall j :: i <= j < n ==> table[j] == Empty
      {
        table[i] := Empty;
      }
      assert table[..] == Empties(n);
    }

    /** Free everything and forget all sizes. */
    method Clear()
      requires Valid()
      modifies this
      ensures Valid() && table == null
      ensures State() == Runs.NewDict().(cumEntries := old(cumEntries))
    {
      table := null;
      log2Buckets, numIterators, remaps, remapEnd, numEntries, maxEntries := 0, 0, 0, -1, 0, 0;
    }

    // ---------- cluster math ----------

    method EndOfClusterByBucket(bucket: nat) returns (i: nat)
      requires Ready() && bucket < Pow2(log2Buckets)
      ensures i == EndOfCluster(Slots(), bucket, bucket)
    {
      i := bucket;
      while i < table.Length && table[i].Used? && i - table[i].distance <= bucket
        invariant bucket <= i <= table.Length
        invariant EndOfCluster(Slots(), bucket, i) == EndOfCluster(Slots(), bucket, bucket)
      {
        i := i + 1;
      }
    }

    method TailOfClusterByPosition(position: nat) returns (tail: nat)
      requires Ready() && position < table.Length && table[position].Used?
      ensures tail == TailOfRun(Slots(), position)
    {
      var bucket := position - table[position].distance;
      var i := position;
      while i < table.Length && table[i].Used? && i - table[i].distance == bucket
        invariant position <= i <= table.Length
        invariant EndOfRun(Slots(), bucket, i) == EndOfRun(Slots(), bucket, position)
      {
        i := i + 1;
      }
      tail := i - 1;
    }

    method EndOfClusterByPosition(position: nat) returns (end: nat)
      requires Ready() && position < table.Length && table[position].Used?
      ensures end == EndOfRun(Slots(), Bucket(Slots(), position), position)
    {
      var tail := TailOfClusterByPosition(position);
      end := tail + 1;
    }

    /** Next occupied position after `position`, which may be -1. */
    method Next(position: int) returns (next: nat)
      requires Ready() && -1 <= position < table.Length
      ensures next == Iter.NextUsed(Slots(), position + 1)
    {
      next := position + 1;
      while next < table.Length && table[next].Empty?
        invariant position + 1 <= next <= table.Length
        invariant Iter.NextUsed(Slots(), next) == Iter.NextUsed(Slots(), position + 1)
      {
        next := next + 1;
      }
    }

    // ---------- growing ----------

    /** Double the buckets; the old slots keep their positions. */
    method SizeUp()
      requires Ready()
      modifies this`log2Buckets, this`table, this`remapEnd, this`remaps
      ensures Ready() && fresh(table)
      ensures State() == DictResize.SizeUp(old(State()))
    {
      ghost var d := State();
      var prevCapacity := table.Length;
      CapacityGrows(log2Buckets);
      log2Buckets := log2Buckets + 1;
      var capacity := Capacity(log2Buckets);
      var grown := Reallocate(table, capacity);
      for i := prevCapacity to capacity
        invariant forall j :: 0 <= j < i ==> grown[j] == if j < prevCapacity then d.table[j] else Empty
        modifies grown
      {
        grown[i] := Empty;
      }
      table := grown;
      remapEnd := prevCapacity;
      remaps := remaps + 1;
      assert Slots() == d.table + Empties(capacity - prevCapacity);
      assert State() == DictResize.SizeUp(d);
    }

    /** `realloc`: a larger array that starts with the old contents. */
    static method Reallocate(a: array<Slot>, size: nat) returns (b: array<Slot>)
      requires size >= a.Length
      ensures fresh(b) && b.Length == size
      ensures b[..a.Length] == a[..]
    {
      b := new Slot[size];
      forall i | 0 <= i < a.Length {
        b[i] := a[i];
      }
    }

    // ---------- insertion and removal chains ----------

    method InsertAndRelocate(slot: Slot, insertPosition: nat) returns (last: nat)
      requires Ready() && Fits(Slots(), slot, insertPosition)
      modifies this, table
      ensures Ready() && (table == old(table) || fresh(table))
      ensures (State(), last) == Relocate(old(State()), slot, insertPosition)
    {
      ghost var result := Relocate(State(), slot, insertPosition);
      var entry, position := slot, insertPosition;
      while position < table.Length && table[position].Used?
        invariant Ready() && table == old(table) && Fits(Slots(), entry, position)
        invariant Relocate(State(), entry, position) == result
        decreases table.Length - position
      {
        RelocateTurn(State(), entry, position);
        DisplacedFits(Slots(), entry, position);
        entry, position := Displace(entry, position);
      }
      Put(entry, position);
      return position;
    }

    /** The two ends of the chain: behind the last slot, where the table grows, or in an empty slot. */
    method Put(slot: Slot, position: nat)
      requires Ready() && Fits(Slots(), slot, position) && (position < table.Length ==> table[position].Empty?)
      modifies this, table
      ensures Ready() && (table == old(table) || fresh(table))
      ensures (State(), position) == Relocate(old(State()), slot, position)
    {
      ghost var d, t := State(), Slots();
      if position >= table.Length {
        RelocateBehind(d, slot);
        SizeUp();
        table[position] := slot;
        assert Slots() == (t + [slot]) + Empties(|Slots()| - |t| - 1);
      } else {
        RelocateIntoEmpty(d, slot, position);
        table[position] := slot;
        assert Slots() == t[position := slot];
      }
    }

    static lemma RelocateIntoEmpty(d: Dict, s: Slot, i: nat)
      requires Shape(d) && Fits(d.table, s, i) && i < |d.table| && d.table[i].Empty?
      ensures Relocate(d, s, i) == (d.(table := d.table[i := s]), i)
    {
    }

    static lemma RelocateBehind(d: Dict, s: Slot)
      requires Shape(d) && Fits(d.table, s, |d.table|)
      ensures var g := DictResize.SizeUp(d);
              |g.table| > |d.table|
              && Relocate(d, s, |d.table|) == (g.(table := (d.table + [s]) + Empties(|g.table| - |d.table| - 1)), |d.table|)
    {
      CapacityGrows(d.log2);
    }

    /** One displacement does not change what the whole chain leaves. */
    static lemma RelocateTurn(d: Dict, s: Slot, i: nat)
      requires Shape(d) && Fits(d.table, s, i) && i < |d.table| && d.table[i].Used?
      ensures var t, next := d.table[i := s], EndOfRun(d.table, Bucket(d.table, i), i);
              && Clustered(t) && Fits(t, Displaced(d.table, i), next)
              && Relocate(d, s, i) == Relocate(d.(table := t), Displaced(d.table, i), next)
    {
      DisplacedFits(d.table, s, i);
    }

    /** Write `slot` over an occupied one, which is to be appended at the end of its own run. */
    method Displace(slot: Slot, position: nat) returns (displaced: Slot, next: nat)
      requires Ready() && Fits(Slots(), slot, position) && position < table.Length && table[position].Used?
      modifies table
      ensures Ready() && State() == old(State()).(table := old(Slots())[position := slot])
      ensures displaced == Displaced(old(Slots()), position)
      ensures next == EndOfRun(old(Slots()), Bucket(old(Slots()), position), position)
    {
      ghost var t := Slots();
      DisplacedFits(t, slot, position);
      next := EndOfClusterByPosition(position);
      displaced := table[position].(distance := table[position].distance + (next - position));
      table[position] := slot;
      assert Slots() == t[position := slot];
    }

    method InsertRelocateAndAdjust(slot: Slot, insertPosition: nat)
      requires Ready() && Fits(Slots(), slot, insertPosition)
      modifies this, table
      ensures Ready() && (table == old(table) || fresh(table))
      ensures State() == RelocateAndAdjust(old(State()), slot, insertPosition)
    {
      var last := InsertAndRelocate(slot, insertPosition);
      if remapEnd >= 0 && insertPosition <= remapEnd && remapEnd < last {
        remapEnd := last;
      }
    }

    method RemoveAndRelocate(start: nat) returns (removed: Slot)
      requires Ready() && start < table.Length && table[start].Used?
      modifies table
      ensures Ready()
      ensures State() == RemoveAt(old(State()), start)
      ensures removed == old(table[start])
    {
      ghost var d := State();
      removed := table[start];
      var position := start;
      while true
        invariant Ready() && State() == d.(table := Slots())
        invariant position < table.Length && table[position].Used?
        invariant RemoveChain(Slots(), position).0 == RemoveChain(d.table, start).0
        decreases table.Length - position
      {
        ghost var t := Slots();
        if position == table.Length - 1 || table[position + 1].Empty? || table[position + 1].distance == 0 {
          EmptyTheTail(t, position);
          table[position] := Empty;
          assert Slots() == t[position := Empty];
          return;
        }
        position := PullForward(position);
      }
    }

    /** One round of the removal loop: pull the tail of the next run into `position`. */
    method PullForward(position: nat) returns (next: nat)
      requires Ready() && position < table.Length && table[position].Used? && !NothingToPull(Slots(), position)
      modifies table
      ensures Ready() && position < next < table.Length && table[next].Used?
      ensures next == TailOfRun(old(Slots()), position + 1)
      ensures State() == old(State()).(table := old(Slots())[position := Pulled(old(Slots()), position)])
    {
      ghost var t := Slots();
      PulledKeepsClusters(t, position);
      next := TailOfClusterByPosition(position + 1);
      DistanceStep(t, position);
      table[position] := table[next].(distance := table[next].distance - (next - position));
      assert Slots() == t[position := Pulled(t, position)];
    }

    /** The slot pulled forward is at least as far from its bucket as it is pulled. */
    static lemma DistanceStep(t: Table, i: nat)
      requires Clustered(t) && i < |t| && t[i].Used? && !NothingToPull(t, i)
      ensures var next := TailOfRun(t, i + 1);
              t[next].distance >= next - i && Pulled(t, i) == t[next].(distance := t[next].distance - (next - i))
    {
      assert Pulled(t, i).distance >= 0;
    }

    // ---------- remapping ----------

    /** Take the entry at `position` out; the slot for it and its place under the current size. */
    method Lift(position: nat) returns (slot: Slot, insertPosition: nat)
      requires Ready() && position < table.Length && table[position].Used?
      modifies table
      ensures Ready()
      ensures (State(), slot, insertPosition) == Lifted(old(State()), position)
    {
      var expected := BucketByHash(table[position].entry.key.hash, log2Buckets);
      slot := RemoveAndRelocate(position);
      insertPosition := EndOfClusterByBucket(expected);
      slot := slot.(distance := insertPosition - expected);
    }

    /** Move the entry at `position` to its bucket for the current size, if it is elsewhere. */
    method RemapPosition(position: nat) returns (moved: bool, newPosition: nat)
      requires Ready() && position < table.Length && table[position].Used?
      modifies this, table
      ensures Ready() && (table == old(table) || fresh(table))
      ensures (State(), moved, newPosition) == RemapAt(old(State()), position)
    {
      var current := position - table[position].distance;
      if current == BucketByHash(table[position].entry.key.hash, log2Buckets) {
        return false, position;
      }
      var slot, insertPosition := Lift(position);
      var _ := InsertAndRelocate(slot, insertPosition);
      return true, insertPosition;
    }

    /** One turn of the bulk loop; true when an entry moved. */
    method RemapStep() returns (moved: bool)
      requires Ready() && remapEnd >= 0
      modifies this, table
      ensures Ready() && (table == old(table) || fresh(table))
      ensures State() == BulkStep(old(State()))
      ensures moved == NeedsMove(old(State()))
    {
      moved := false;
      if table[remapEnd].Used? {
        var where;
        moved, where := RemapPosition(remapEnd);
      }
      if !moved {
        remapEnd := remapEnd - 1;
      }
    }

    /** One pass of the bulk remap, from `remapEnd` down; skipped while an iteration is open. */
    method Remap()
      requires Ready()
      modifies this, table
      ensures Ready() && (table == old(table) || fresh(table))
      ensures State() == DictResize.Remap(old(State()))
    {
      if numIterators > 0 {
        return;
      }
      ghost var result := BulkRemap(State(), REMAP_ENTRIES).0;
      var left := REMAP_ENTRIES;
      while remapEnd >= 0 && left > 0
        invariant Ready() && (table == old(table) || fresh(table))
        invariant BulkRemap(State(), left).0 == result
        decreases left, remapEnd
      {
        left := RemapTurn(left, result);
      }
      FinishRemap(left, result);
    }

    /** One turn of the loop, by what is left of the pass. */
    method RemapTurn(left: nat, ghost result: Dict) returns (left': nat)
      requires Ready() && remapEnd >= 0 && left > 0 && BulkRemap(State(), left).0 == result
      modifies this, table
      ensures Ready() && (table == old(table) || fresh(table))
      ensures BulkRemap(State(), left').0 == result
      ensures left' < left || (left' == left && remapEnd < old(remapEnd))
    {
      BulkRemapTurn(State(), left);
      var moved := RemapStep();
      left' := if moved then left - 1 else left;
    }

    /** Forget the earlier sizes once nothing is left to remap. */
    method FinishRemap(left: nat, ghost result: Dict)
      requires Ready() && (remapEnd < 0 || left == 0) && BulkRemap(State(), left).0 == result
      modifies this`remaps
      ensures Ready() && State() == result
    {
      if remapEnd < 0 {
        remaps := 0;
      }
    }

    static lemma BulkRemapTurn(d: Dict, left: nat)
      requires Shape(d) && d.remapEnd >= 0 && left > 0
      ensures BulkRemap(d, left).0 == BulkRemap(BulkStep(d), if NeedsMove(d) then left - 1 else left).0
    {
    }

    // ---------- searching ----------

    /** First position of the key in the whole table, or -1. */
    method LinearLookupIndex(key: Key) returns (position: int)
      requires Ready()
      ensures position == -1 <==> LinearSearch(Slots(), key, 0).Miss?
      ensures position >= 0 ==> LinearSearch(Slots(), key, 0) == Hit(position)
    {
      for i := 0 to table.Length
        invariant LinearSearch(Slots(), key, i) == LinearSearch(Slots(), key, 0)
      {
        if table[i].Used? && table[i].entry.key == key {
          return i;
        }
      }
      return -1;
    }

    /** Search one bucket's cluster below `end`; on failure, where the cluster ends. */
    method SearchCluster(key: Key, bucket: nat, end: nat) returns (r: Search)
      requires Ready() && bucket < Pow2(log2Buckets) && end <= table.Length
      ensures r == ClusterSearch(Slots(), key, bucket, bucket, end)
    {
      var i := bucket;
      while i < end && table[i].Used? && i - table[i].distance <= bucket
        invariant bucket <= i && (i <= end || i == bucket)
        invariant ClusterSearch(Slots(), key, bucket, i, end) == ClusterSearch(Slots(), key, bucket, bucket, end)
      {
        if i - table[i].distance == bucket && table[i].entry.key == key {
          return Hit(i);
        }
        i := i + 1;
      }
      return Miss(i);
    }

    /** Search the earlier sizes still in use, the latest first. */
    method SearchEarlierSizes(key: Key) returns (r: Search)
      requires Ready()
      ensures r == SearchEarlier(State(), key, 1)
    {
      ghost var d := State();
      var i := 1;
      while i <= remaps
        invariant 1 <= i
        invariant SearchEarlier(d, key, i) == SearchEarlier(d, key, 1)
        decreases remaps - i
      {
        r := SearchEarlierSize(key, i);
        if r.Hit? {
          return;
        }
        i := i + 1;
      }
      return Miss(0);
    }

    /** One earlier size: search its bucket's cluster among the slots not yet remapped. */
    method SearchEarlierSize(key: Key, i: nat) returns (r: Search)
      requires Ready() && i <= remaps
      ensures r == EarlierSearch(State(), key, i)
    {
      var bucket := BucketByHash(key.hash, log2Buckets - i);
      r := Miss(0);
      if bucket <= remapEnd {
        Pow2Monotone(log2Buckets - i, log2Buckets);
        r := SearchCluster(key, bucket, remapEnd + 1);
      }
    }

    /** Search all sizes still in use; relocate a key found under an earlier one unless iterating. */
    method LookupIndex(key: Key) returns (r: Search)
      requires Ready()
      modifies this, table
      ensures Ready() && (table == old(table) || fresh(table))
      ensures (State(), r) == DictSearch.LookupIndex(old(State()), key)
    {
      ghost var d := State();
      var bucket := BucketByHash(key.hash, log2Buckets);
      r := SearchCluster(key, bucket, table.Length);
      assert r == SearchCurrent(d, key);
      if r.Miss? {
        var earlier := SearchEarlierSizes(key);
        if earlier.Hit? {
          r := earlier;
          assert r == Find(d, key);
          if numIterators == 0 {
            var _, position := RemapPosition(earlier.position);
            r := Hit(position);
          }
        }
      }
    }

    // ---------- the public operations ----------

    function Length(): int
      reads this
    {
      numEntries
    }

    /**
     Look a key up. Beside the exact new state: on a dictionary that stands for a map the map's
     binding, or null, is returned, and the dictionary still stands for that map exactly when the
     call was safe.
     */
    method Lookup(bytes: seq<Octet>, hash: nat) returns (value: Pointer)
      requires Valid()
      modifies this, table
      ensures Valid() && (table == old(table) || fresh(table))
      ensures (State(), value) == DictMap.Lookup(old(State()), MakeKey(bytes, hash))
      ensures forall m | old(Stands(State(), m)) ::
                && value == Get(m, MakeKey(bytes, hash)) && Length() == |m|
                && (Stands(State(), m) <==> old(Safe(State(), MakeKey(bytes, hash))))
                && (old(Safe(State(), MakeKey(bytes, hash))) ==> Keys.ChangesOnly(old(State()), State(), bytes, hash, value))
    {
      ghost var d := State();
      var key := MakeKey(bytes, hash);
      if table == null {
        value := NULL;
      } else {
        var r := LookupIndex(key);
        value := if r.Hit? then table[r.position].entry.value else NULL;
      }
      forall m | Stands(d, m)
        ensures value == Get(m, key) && (Stands(State(), m) <==> Safe(d, key))
        ensures Safe(d, key) ==> Keys.ChangesOnly(d, State(), bytes, hash, value)
      {
        LookupIsMapGet(d, m, key);
        if Safe(d, key) {
          Keys.LookupChangesNothing(d, m, bytes, hash);
        }
      }
    }

    /** Bind a key and return its previous value, or null; only with no iteration open. */
    method Insert(bytes: seq<Octet>, hash: nat, value: Pointer) returns (previous: Pointer)
      requires Valid() && numIterators == 0
      modifies this, table
      ensures Valid() && (table == old(table) || fresh(table)) && numIterators == 0
      ensures (State(), previous) == DictMap.Insert(old(State()), MakeKey(bytes, hash), value)
      ensures forall m | old(Stands(State(), m)) ::
                && previous == Get(m, MakeKey(bytes, hash))
                && Length() == (if MakeKey(bytes, hash) in m then |m| else |m| + 1)
                && Stands(State(), m[MakeKey(bytes, hash) := value]) == old(InsertSafe(State(), MakeKey(bytes, hash), value))
      ensures forall m | old(Stands(State(), m)) :: old(InsertSafe(State(), MakeKey(bytes, hash), value)) ==>
                Keys.ChangesOnly(old(State()), State(), bytes, hash, value)
    {
      ghost var d := State();
      previous := InsertKey(MakeKey(bytes, hash), value);
      forall m | Stands(d, m)
        ensures Keys.Inserted(d, m, State(), previous, bytes, hash, value)
      {
        Keys.InsertIsInserted(d, m, bytes, hash, value);
      }
    }

    /** The same with the key built from the bytes and the hash. */
    method InsertKey(key: Key, value: Pointer) returns (previous: Pointer)
      requires Valid() && numIterators == 0
      modifies this, table
      ensures Valid() && (table == old(table) || fresh(table)) && numIterators == 0
      ensures (State(), previous) == DictMap.Insert(old(State()), key, value)
    {
      ghost var d := State();
      if table == null {
        Init();
      }
      assert State() == Initialized(d);
      var r := LookupIndex(key);
      previous := Bind(key, value, r);
      if remapEnd >= 0 {
        Remap();
      }
    }

    /** Rebind the entry found, or insert a new one. */
    method Bind(key: Key, value: Pointer, r: Search) returns (previous: Pointer)
      requires Ready()
      requires if r.Hit? then r.position < table.Length && table[r.position].Used?
               else r.insertPosition == InsertionPoint(Slots(), key, log2Buckets)
      modifies this, table
      ensures Ready() && (table == old(table) || fresh(table))
      ensures r.Hit? ==> State() == SetValue(old(State()), r.position, value) && previous == old(table[r.position].entry.value)
      ensures r.Miss? ==> State() == InsertNew(old(State()), Entry(key, value)) && previous == NULL
    {
      if r.Hit? {
        previous := table[r.position].entry.value;
        SetValueAt(r.position, value);
      } else {
        previous := NULL;
        InsertEntry(Entry(key, value), r.insertPosition);
      }
    }

    method SetValueAt(position: nat, value: Pointer)
      requires Ready() && position < table.Length && table[position].Used?
      modifies table
      ensures Ready()
      ensures State() == SetValue(old(State()), position, value)
    {
      ghost var t := Slots();
      RewriteKeepsClusters(t, position, value);
      table[position] := table[position].(entry := table[position].entry.(value := value));
      assert Slots() == t[position := Rewritten(t, position, value)];
    }

    /** Put a new entry at the end of its bucket's cluster. */
    method PlaceEntry(entry: Entry, insertPosition: nat)
      requires Ready() && insertPosition == InsertionPoint(Slots(), entry.key, log2Buckets)
      modifies this, table
      ensures Ready() && (table == old(table) || fresh(table))
      ensures State() == Placed(old(State()), entry)
    {
      var bucket := BucketByHash(entry.key.hash, log2Buckets);
      InsertionPointFits(Slots(), entry, log2Buckets);
      InsertRelocateAndAdjust(Used(entry, insertPosition - bucket), insertPosition);
    }

    /** The not-found branch of `Insert`. */
    method InsertEntry(entry: Entry, insertPosition: nat)
      requires Ready() && insertPosition == InsertionPoint(Slots(), entry.key, log2Buckets)
      modifies this, table
      ensures Ready() && (table == old(table) || fresh(table))
      ensures State() == InsertNew(old(State()), entry)
    {
      PlaceEntry(entry, insertPosition);
      ghost var p := State();
      numEntries := numEntries + 1;
      cumEntries := cumEntries + 1;
      if maxEntries < numEntries {
        maxEntries := numEntries;
      }
      assert State() == Counted(p);
      if numEntries > ThresholdEntries(log2Buckets) {
        SizeUp();
      }
    }

    /** Unbind a key and return its value, or null; only with no iteration open. */
    method Remove(bytes: seq<Octet>, hash: nat) returns (value: Pointer)
      requires Valid() && numIterators == 0
      modifies this, table
      ensures Valid() && (table == old(table) || fresh(table)) && numIterators == 0
      ensures (State(), value) == DictMap.Remove(old(State()), MakeKey(bytes, hash))
      ensures forall m | old(Stands(State(), m)) ::
                && Stands(State(), m - {MakeKey(bytes, hash)}) && value == Get(m, MakeKey(bytes, hash))
                && Keys.ChangesOnly(old(State()), State(), bytes, hash, NULL)
    {
      ghost var d := State();
      var key := MakeKey(bytes, hash);
      if table == null {
        value := NULL;
      } else {
        var r := LookupIndex(key);
        if r.Miss? {
          value := NULL;
        } else {
          var removed := RemoveAndRelocate(r.position);
          numEntries := numEntries - 1;
          assert State() == Removed(DictSearch.LookupIndex(d, key).0, r.position);
          value := removed.entry.value;
        }
      }
      forall m | Stands(d, m)
        ensures Stands(State(), m - {key}) && value == Get(m, key)
        ensures Keys.ChangesOnly(d, State(), bytes, hash, NULL)
      {
        RemoveIsMapErase(d, m, key);
        Keys.RemoveChangesOnly(d, m, bytes, hash);
      }
    }

    // ---------- iteration ----------

    ghost function CookieOf(c: IterCookie): Iter.Cookie
      reads c
    {
      Iter.At(c.next)
    }

    method InitForIteration() returns (c: IterCookie)
      requires Valid()
      modifies this`numIterators
      ensures Valid() && fresh(c)
      ensures (State(), CookieOf(c)) == Iter.InitForIteration(old(State()))
    {
      numIterators := numIterators + 1;
      c := new IterCookie();
    }

    method StopIteration(c: IterCookie)
      requires Valid()
      modifies this`numIterators
      ensures Valid() && State() == Iter.EndIteration(old(State()))
    {
      if numIterators > 0 {
        numIterators := numIterators - 1;
      }
    }

    /** The value at the cookie, advancing it; at the end the iteration is closed and null returned. */
    method NextEntry(c: IterCookie) returns (value: Pointer, ended: bool)
      requires Valid() && Iter.CookieFor(State(), CookieOf(c))
      modifies this`numIterators, c
      ensures Valid()
      ensures var (d, cookie, out) := Iter.NextEntry(old(State()), old(CookieOf(c)));
              && State() == d
              && ended == cookie.Finished?
              && (ended ==> value == NULL)
              && (!ended ==> CookieOf(c) == cookie && |out| == 1 && value == Slots()[out[0]].entry.value)
    {
      if table == null {
        StopIteration(c);
        return NULL, true;
      }
      if c.next < 0 {
        var first := Next(-1);
        c.next := first;
      }
      var capacity := table.Length;
      if c.next >= capacity {
        StopIteration(c);
        return NULL, true;
      }
      value := table[c.next].entry.value;
      var next := Next(c.next);
      c.next := next;
      ended := false;
    }
  }
}
