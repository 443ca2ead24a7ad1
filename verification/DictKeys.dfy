/**
 What the operations do for a caller, who passes byte strings with their hashes, and what the counter
 of the largest length counts.
 */
module DictKeys {
  import opened Arithmetic
  import opened DictTable
  import opened DictResize
  import opened DictSearch
  import opened DictMap
  import opened DictRuns

  /** What a lookup of these bytes with this hash returns. */
  function Found(d: Dict, bytes: seq<Octet>, hash: nat): Pointer
    requires WellFormed(d)
  {
    Lookup(d, MakeKey(bytes, hash)).1
  }

  /** Lookups of `bytes` with these low 32 bits of the hash find `value`; all others find what they found before. */
  ghost predicate ChangesOnly(d: Dict, e: Dict, bytes: seq<Octet>, hash: nat, value: Pointer)
    requires WellFormed(d) && WellFormed(e)
  {
    forall b, h: nat :: Found(e, b, h) ==
      if b == bytes && h % 0x1_0000_0000 == hash % 0x1_0000_0000 then value else Found(d, b, h)
  }

  lemma FoundIsGet(d: Dict, m: map<Key, Pointer>, bytes: seq<Octet>, hash: nat)
    requires Stands(d, m)
    ensures Found(d, bytes, hash) == Get(m, MakeKey(bytes, hash))
  {
    LookupIsMapGet(d, m, MakeKey(bytes, hash));
  }

  lemma OneChange(d: Dict, e: Dict, m: map<Key, Pointer>, n: map<Key, Pointer>, bytes: seq<Octet>, hash: nat, value: Pointer)
    requires Stands(d, m) && Stands(e, n)
    requires forall k :: Get(n, k) == if k == MakeKey(bytes, hash) then value else Get(m, k)
    ensures ChangesOnly(d, e, bytes, hash, value)
  {
    forall b, h: nat ensures Found(e, b, h) ==
        if b == bytes && h % 0x1_0000_0000 == hash % 0x1_0000_0000 then value else Found(d, b, h)
    {
      FoundIsGet(d, m, b, h);
      FoundIsGet(e, n, b, h);
      SameKeyIff(b, h, bytes, hash);
    }
  }

  /** A safe insertion changes what is found for its own bytes and hash alone. */
  lemma InsertChangesOnly(d: Dict, m: map<Key, Pointer>, bytes: seq<Octet>, hash: nat, value: Pointer)
    requires Stands(d, m) && d.numIterators == 0 && InsertSafe(d, MakeKey(bytes, hash), value)
    ensures ChangesOnly(d, Insert(d, MakeKey(bytes, hash), value).0, bytes, hash, value)
  {
    var key := MakeKey(bytes, hash);
    InsertIsMapUpdate(d, m, key, value);
    OneChange(d, Insert(d, key, value).0, m, m[key := value], bytes, hash, value);
  }

  /** The length grows by one exactly when the key was not bound, safe or not. */
  lemma InsertCounts(d: Dict, m: map<Key, Pointer>, key: Key, value: Pointer)
    requires Stands(d, m) && d.numIterators == 0
    ensures Insert(d, key, value).0.numEntries == if key in m then |m| else |m| + 1
  {
    InitializedStands(d, m);
    LookupIndexCorrect(Initialized(d), m, key);
  }

  /** All that an insertion does for a caller. */
  ghost predicate Inserted(d: Dict, m: map<Key, Pointer>, e: Dict, previous: Pointer, bytes: seq<Octet>, hash: nat, value: Pointer)
    requires WellFormed(d) && WellFormed(e)
  {
    var key := MakeKey(bytes, hash);
    && previous == Get(m, key) && e.numEntries == (if key in m then |m| else |m| + 1)
    && Stands(e, m[key := value]) == InsertSafe(d, key, value)
    && (InsertSafe(d, key, value) ==> ChangesOnly(d, e, bytes, hash, value))
  }

  lemma InsertIsInserted(d: Dict, m: map<Key, Pointer>, bytes: seq<Octet>, hash: nat, value: Pointer)
    requires Stands(d, m) && d.numIterators == 0
    ensures var (e, previous) := Insert(d, MakeKey(bytes, hash), value); Inserted(d, m, e, previous, bytes, hash, value)
  {
    var key := MakeKey(bytes, hash);
    InsertIsMapUpdate(d, m, key, value);
    InsertCounts(d, m, key, value);
    if InsertSafe(d, key, value) {
      InsertChangesOnly(d, m, bytes, hash, value);
    }
  }

  /** A removal makes its own bytes and hash unknown, and nothing else. */
  lemma RemoveChangesOnly(d: Dict, m: map<Key, Pointer>, bytes: seq<Octet>, hash: nat)
    requires Stands(d, m) && d.numIterators == 0
    ensures ChangesOnly(d, Remove(d, MakeKey(bytes, hash)).0, bytes, hash, NULL)
  {
    var key := MakeKey(bytes, hash);
    RemoveIsMapErase(d, m, key);
    OneChange(d, Remove(d, key).0, m, m - {key}, bytes, hash, NULL);
  }

  /** A safe lookup changes nothing that is found. */
  lemma LookupChangesNothing(d: Dict, m: map<Key, Pointer>, bytes: seq<Octet>, hash: nat)
    requires Stands(d, m) && Safe(d, MakeKey(bytes, hash))
    ensures var (e, v) := Lookup(d, MakeKey(bytes, hash)); ChangesOnly(d, e, bytes, hash, v)
  {
    var key := MakeKey(bytes, hash);
    LookupIsMapGet(d, m, key);
    OneChange(d, Lookup(d, key).0, m, m, bytes, hash, Get(m, key));
  }

  // ---------- the counters ----------

  function Larger(a: int, b: int): int {
    if a < b then b else a
  }

  /** One operation on any dictionary keeps the largest length so far. */
  lemma StepKeepsLargest(d: Dict, op: Op)
    requires WellFormed(d) && d.numIterators == 0 && d.numEntries <= d.maxEntries
    ensures var e := Step(d, op).0; e.maxEntries == Larger(d.maxEntries, e.numEntries)
  {
  }

  /** The largest length seen along a run, or `n`. */
  function Largest(n: int, seen: seq<Seen>): int
    decreases |seen|
  {
    if |seen| == 0 then n else Largest(Larger(n, seen[0].length), seen[1..])
  }

  lemma {:induction false} LargestIsLargest(n: int, seen: seq<Seen>)
    ensures Largest(n, seen) >= n && forall k :: 0 <= k < |seen| ==> Largest(n, seen) >= seen[k].length
    ensures Largest(n, seen) == n || exists k :: 0 <= k < |seen| && Largest(n, seen) == seen[k].length
    decreases |seen|
  {
    if |seen| > 0 {
      LargestIsLargest(Larger(n, seen[0].length), seen[1..]);
    }
  }

  /** Along every run, safe or not, `MaxLength` is the largest length there has been. */
  lemma {:induction false} RunKeepsLargest(d: Dict, ops: seq<Op>)
    requires WellFormed(d) && d.numIterators == 0 && d.numEntries <= d.maxEntries
    ensures var (e, seen) := Run(d, ops); e.maxEntries == Largest(d.maxEntries, seen)
    decreases |ops|
  {
    if |ops| > 0 {
      StepKeepsLargest(d, ops[0]);
      RunKeepsLargest(Step(d, ops[0]).0, ops[1..]);
      RunFirst(d, ops);
    }
  }
}
