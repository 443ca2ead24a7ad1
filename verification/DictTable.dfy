/**
 The slot array of the clustered-hash dictionary: which bucket an entry sits in, what it means
 for the array to be clustered, and how a bucket's cluster is searched.
 */
module DictTable {
  import opened Arithmetic

  /** A `void*`; zero is the null pointer. */
  type Pointer = nat
  const NULL: Pointer := 0

  /** What `DictEntry::Equal` compares: the key bytes and the low 32 bits of the hash. */
  datatype Key = Key(bytes: seq<Octet>, hash: nat)

  datatype Entry = Entry(key: Key, value: Pointer)

  /** One `DictEntry`: the reserved distance 0xFFFF of the source is the constructor `Empty`. */
  datatype Slot = Empty | Used(entry: Entry, distance: nat)

  /** An entry together with the bucket it is effectively stored under, position minus distance. */
  datatype Home = Home(entry: Entry, bucket: int)

  type Table = seq<Slot>

  // ---------- bucket math ----------

  const HASH_RANGE := 0x1_0000_0000
  const FIB_MULTIPLIER := 11400714819323198485

  function MakeKey(bytes: seq<Octet>, hash: nat): Key {
    Key(bytes, hash % HASH_RANGE)
  }

  /** Two byte strings with their hashes are one key when the bytes and the low 32 bits agree. */
  lemma SameKeyIff(bytes: seq<Octet>, hash: nat, bytes': seq<Octet>, hash': nat)
    ensures MakeKey(bytes, hash) == MakeKey(bytes', hash') <==> bytes == bytes' && hash % 0x1_0000_0000 == hash' % 0x1_0000_0000
  {
  }

  function FibHash(hash: nat): nat {
    ((hash % HASH_RANGE) * FIB_MULTIPLIER) % WORD_RANGE
  }

  function BucketByHash(hash: nat, log2: nat): (bucket: nat)
    ensures bucket < Pow2(log2)
  {
    LowBits(FibHash(hash), log2)
  }

  /** Fibonacci hashing: the bucket is the product with the multiplier modulo the table size. */
  lemma BucketIsModulo(hash: nat, log2: nat)
    ensures BucketByHash(hash, log2) == ((hash % HASH_RANGE) * FIB_MULTIPLIER) % WORD_RANGE % Pow2(log2)
  {
    LowBitsIsModulo(FibHash(hash), log2);
  }

  /** The code shifts the 64-bit product left and right by `64 - log2`, and skips that for no bits. */
  lemma BucketIsShifted(hash: nat, log2: nat)
    requires log2 <= 64
    ensures var m := 64 - log2;
            BucketByHash(hash, log2) == if log2 == 0 then 0 else FibHash(hash) * Pow2(m) % WORD_RANGE / Pow2(m)
  {
    WordIsPower();
    ShiftsKeepLowBits(FibHash(hash), log2, 64 - log2);
  }

  /** Home bucket of a key in a table of `2^log2` buckets. */
  function KeyBucket(key: Key, log2: nat): (bucket: nat)
    ensures bucket < Pow2(log2)
  {
    BucketByHash(key.hash, log2)
  }

  /** The bits of the hash that a key does not keep are not used for its bucket either. */
  lemma BucketOfMadeKey(bytes: seq<Octet>, hash: nat, log2: nat)
    ensures KeyBucket(MakeKey(bytes, hash), log2) == BucketByHash(hash, log2)
  {
  }

  function Capacity(log2: nat): (capacity: nat)
    ensures capacity >= 1
  {
    Pow2(log2) + log2
  }

  /** Doubling the table keeps a key's bucket or moves it up by the old number of buckets. */
  lemma BucketDoubles(key: Key, log2: nat)
    ensures KeyBucket(key, log2 + 1) == KeyBucket(key, log2)
         || KeyBucket(key, log2 + 1) == KeyBucket(key, log2) + Pow2(log2)
  {
    LowBitsGrow(FibHash(key.hash), log2);
  }

  // ---------- effective buckets ----------

  function Bucket(t: Table, i: nat): int
    requires i < |t| && t[i].Used?
  {
    i - t[i].distance
  }

  function HomeOf(t: Table, i: nat): Home
    requires i < |t| && t[i].Used?
  {
    Home(t[i].entry, i - t[i].distance)
  }

  function HomeAt(s: Slot, i: nat): multiset<Home> {
    if s.Used? then multiset{Home(s.entry, i - s.distance)} else multiset{}
  }

  /** Every entry stored below `n`, with its effective bucket. */
  function HomesBelow(t: Table, n: nat): multiset<Home>
    requires n <= |t|
  {
    if n == 0 then multiset{} else HomesBelow(t, n - 1) + HomeAt(t[n - 1], n - 1)
  }

  /** Every stored entry with its effective bucket. */
  function Homes(t: Table): multiset<Home> {
    HomesBelow(t, |t|)
  }

  lemma {:induction false} HomesBelowFrame(t: Table, u: Table, n: nat)
    requires n <= |t| && n <= |u|
    requires forall i :: 0 <= i < n ==> t[i] == u[i]
    ensures HomesBelow(t, n) == HomesBelow(u, n)
  {
    if n > 0 {
      HomesBelowFrame(t, u, n - 1);
    }
  }

  /** One when the slot at `i` is home `h`, else zero. */
  function Has(s: Slot, i: nat, h: Home): nat {
    if s.Used? && s.entry == h.entry && i - s.distance == h.bucket then 1 else 0
  }

  function Count(t: Table, h: Home, n: nat): nat
    requires n <= |t|
  {
    if n == 0 then 0 else Count(t, h, n - 1) + Has(t[n - 1], n - 1, h)
  }

  lemma HasIsMultiplicity(s: Slot, i: nat, h: Home)
    ensures HomeAt(s, i)[h] == Has(s, i, h)
  {
  }

  lemma SumMultiplicity<T>(a: multiset<T>, b: multiset<T>, x: T)
    ensures (a + b)[x] == a[x] + b[x]
    ensures x in a + b <==> x in a || x in b
  {
  }

  lemma PointwiseSums<T(!new)>(a: multiset<T>, b: multiset<T>, c: multiset<T>, d: multiset<T>)
    requires forall x :: a[x] + b[x] == c[x] + d[x]
    ensures a + b == c + d
  {
  }

  lemma OneSlotMore(t: Table, h: Home, n: nat)
    requires 0 < n <= |t|
    ensures HomesBelow(t, n)[h] == HomesBelow(t, n - 1)[h] + Has(t[n - 1], n - 1, h)
  {
    SumMultiplicity(HomesBelow(t, n - 1), HomeAt(t[n - 1], n - 1), h);
    HasIsMultiplicity(t[n - 1], n - 1, h);
  }

  lemma {:induction false} CountIsMultiplicity(t: Table, h: Home, n: nat)
    requires n <= |t|
    ensures HomesBelow(t, n)[h] == Count(t, h, n)
  {
    if n > 0 {
      CountIsMultiplicity(t, h, n - 1);
      OneSlotMore(t, h, n);
    }
  }

  lemma {:induction false} CountFrame(t: Table, u: Table, h: Home, n: nat)
    requires n <= |t| && n <= |u|
    requires forall i :: 0 <= i < n ==> t[i] == u[i]
    ensures Count(t, h, n) == Count(u, h, n)
  {
    if n > 0 {
      CountFrame(t, u, h, n - 1);
    }
  }

  lemma {:induction false} CountUpdate(t: Table, i: nat, s: Slot, h: Home, n: nat)
    requires i < n <= |t|
    ensures Count(t[i := s], h, n) + Has(t[i], i, h) == Count(t, h, n) + Has(s, i, h)
  {
    if i == n - 1 {
      CountFrame(t, t[i := s], h, i);
    } else {
      CountUpdate(t, i, s, h, n - 1);
    }
  }

  lemma HomesUpdate(t: Table, i: nat, s: Slot, h: Home)
    requires i < |t|
    ensures Homes(t[i := s])[h] + Has(t[i], i, h) == Homes(t)[h] + Has(s, i, h)
  {
    CountUpdate(t, i, s, h, |t|);
    CountIsMultiplicity(t, h, |t|);
    CountIsMultiplicity(t[i := s], h, |t|);
  }

  lemma HomesAppend(t: Table, s: Slot)
    ensures Homes(t + [s]) == Homes(t) + HomeAt(s, |t|)
  {
    HomesBelowFrame(t, t + [s], |t|);
  }

  function Empties(k: nat): (t: Table)
    ensures |t| == k
    ensures forall i :: 0 <= i < k ==> t[i] == Empty
  {
    seq(k, _ => Empty)
  }

  lemma {:induction false} HomesPad(t: Table, k: nat)
    ensures Homes(t + Empties(k)) == Homes(t)
  {
    if k == 0 {
      assert t + Empties(0) == t;
    } else {
      HomesPad(t, k - 1);
      var u := t + Empties(k - 1);
      assert t + Empties(k) == u + [Empty];
      HomesAppend(u, Empty);
      assert Homes(u) + multiset{} == Homes(u);
    }
  }

  lemma {:induction false} CountPositive(t: Table, i: nat, h: Home, n: nat)
    requires i < n <= |t|
    ensures Count(t, h, n) >= Has(t[i], i, h)
  {
    if i < n - 1 {
      CountPositive(t, i, h, n - 1);
    }
  }

  lemma HomeOfSlot(t: Table, i: nat)
    requires i < |t| && t[i].Used?
    ensures HomeOf(t, i) in Homes(t)
  {
    var h := HomeOf(t, i);
    CountPositive(t, i, h, |t|);
    CountIsMultiplicity(t, h, |t|);
  }

  lemma {:induction false} SlotOfHomeBelow(t: Table, h: Home, n: nat) returns (i: nat)
    requires n <= |t| && h in HomesBelow(t, n)
    ensures i < n && t[i].Used? && HomeOf(t, i) == h
  {
    if h in HomeAt(t[n - 1], n - 1) {
      i := n - 1;
    } else {
      i := SlotOfHomeBelow(t, h, n - 1);
    }
  }

  lemma SlotOfHome(t: Table, h: Home) returns (i: nat)
    requires h in Homes(t)
    ensures i < |t| && t[i].Used? && HomeOf(t, i) == h
  {
    i := SlotOfHomeBelow(t, h, |t|);
  }

  /** Two slots with the same home count twice. */
  lemma {:induction false} CountPair(t: Table, i: nat, j: nat, h: Home, n: nat)
    requires i < j < n <= |t|
    ensures Count(t, h, n) >= Has(t[i], i, h) + Has(t[j], j, h)
  {
    if j == n - 1 {
      CountPositive(t, i, h, n - 1);
    } else {
      CountPair(t, i, j, h, n - 1);
    }
  }

  // ---------- clustering ----------

  /** An entry sits in its bucket, or directly after an entry of the same or a smaller bucket. */
  predicate Linked(prev: Slot, s: Slot) {
    s.Used? && s.distance > 0 ==> prev.Used? && s.distance <= prev.distance + 1
  }

  function Before(t: Table, i: nat): Slot
    requires i <= |t|
  {
    if i == 0 then Empty else t[i - 1]
  }

  predicate LinkedAt(t: Table, i: nat)
    requires i < |t|
  {
    Linked(Before(t, i), t[i])
  }

  predicate Clustered(t: Table) {
    forall i :: 0 <= i < |t| ==> LinkedAt(t, i)
  }

  /** Between an entry's bucket and its position there is no hole, and buckets never decrease. */
  lemma {:induction false} NoHole(t: Table, i: nat, j: nat)
    requires Clustered(t) && j < |t| && t[j].Used?
    requires Bucket(t, j) <= i <= j
    ensures t[i].Used? && Bucket(t, i) <= Bucket(t, j)
    decreases j
  {
    if i < j {
      assert LinkedAt(t, j);
      NoHole(t, i, j - 1);
    }
  }

  lemma {:induction false} DistanceBound(t: Table, i: nat)
    requires Clustered(t) && i < |t| && t[i].Used?
    ensures t[i].distance <= i
  {
    assert LinkedAt(t, i);
    if i > 0 && t[i].distance > 0 {
      DistanceBound(t, i - 1);
    }
  }

  /** The whole table is sorted by effective bucket. */
  lemma Sorted(t: Table, i: nat, j: nat)
    requires Clustered(t) && i <= j < |t| && t[i].Used? && t[j].Used?
    ensures 0 <= Bucket(t, i) <= Bucket(t, j)
  {
    DistanceBound(t, i);
    if Bucket(t, j) <= i {
      NoHole(t, i, j);
    }
  }

  // ---------- searching a cluster ----------

  /** End of the cluster of `bucket`, scanning from `i`. */
  function EndOfCluster(t: Table, bucket: int, i: nat): (end: nat)
    requires i <= |t|
    ensures i <= end <= |t|
    ensures forall j :: i <= j < end ==> t[j].Used? && Bucket(t, j) <= bucket
    ensures end < |t| && t[end].Used? ==> Bucket(t, end) > bucket
    decreases |t| - i
  {
    if i < |t| && t[i].Used? && Bucket(t, i) <= bucket then EndOfCluster(t, bucket, i + 1) else i
  }

  /** First position at or after `i` that does not hold an entry of exactly `bucket`. */
  function EndOfRun(t: Table, bucket: int, i: nat): (end: nat)
    requires i <= |t|
    ensures i <= end <= |t|
    ensures forall j :: i <= j < end ==> t[j].Used? && Bucket(t, j) == bucket
    ensures end < |t| && t[end].Used? ==> Bucket(t, end) != bucket
    decreases |t| - i
  {
    if i < |t| && t[i].Used? && Bucket(t, i) == bucket then EndOfRun(t, bucket, i + 1) else i
  }

  datatype Search = Hit(position: nat) | Miss(insertPosition: nat)

  /** The one-size search: walk the cluster of `bucket` from `i`, staying below `end`. */
  function ClusterSearch(t: Table, key: Key, bucket: nat, i: nat, end: nat): (r: Search)
    requires end <= |t|
    ensures r.Hit? ==> i <= r.position < end && t[r.position].Used?
                       && t[r.position].entry.key == key && Bucket(t, r.position) == bucket
    ensures r.Miss? ==> i == r.insertPosition || i < r.insertPosition <= end
    ensures r.Miss? ==> forall j :: i <= j < r.insertPosition ==>
                          t[j].Used? && Bucket(t, j) <= bucket
                          && !(Bucket(t, j) == bucket && t[j].entry.key == key)
    ensures r.Miss? && r.insertPosition < end && t[r.insertPosition].Used? ==>
              Bucket(t, r.insertPosition) > bucket
    decreases end - i
  {
    if i < end && t[i].Used? && Bucket(t, i) <= bucket then
      if Bucket(t, i) == bucket && t[i].entry.key == key then Hit(i)
      else ClusterSearch(t, key, bucket, i + 1, end)
    else Miss(i)
  }

  /** A clustered table hides no entry of the bucket from a failed search of its cluster. */
  lemma MissMeansAbsent(t: Table, key: Key, bucket: nat, end: nat, j: nat)
    requires Clustered(t) && end <= |t|
    requires ClusterSearch(t, key, bucket, bucket, end).Miss?
    requires j < end && t[j].Used? && t[j].entry.key == key
    ensures Bucket(t, j) != bucket
  {
    var stop := ClusterSearch(t, key, bucket, bucket, end).insertPosition;
    DistanceBound(t, j);
    if Bucket(t, j) == bucket && stop <= j {
      NoHole(t, stop, j);
    }
  }
}
