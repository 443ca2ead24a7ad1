/**
 The limit of lookup-time relocation, reached from a new dictionary: twenty insertions and two
 lookups lead to a table with two outstanding resizes, in which one more lookup displaces a stored
 entry past `remapEnd`, where no later search looks for it.

 All keys have hashes below 128, chosen so that a key's bucket is a given number modulo the number
 of buckets. Key 0 is the one looked up, key 4 the victim.
 */
module DictLimits {
  import opened Arithmetic
  import opened DictTable
  import opened DictChains
  import opened DictResize
  import opened DictSearch
  import opened DictRecovery
  import opened DictMap
  import opened DictRuns
  import opened DictGaps

  const KEYS: nat := 20

  /** The bucket of key `i` among 128. */
  function Number(i: nat): (b: nat)
    requires i < KEYS
    ensures b < 128
  {
    if i <= 1 then 32 else if i == 2 then 33 else if i <= 4 then 97 else if i <= 11 then 96 + i else 127
  }

  /** The inverse of the Fibonacci multiplier modulo 128. */
  const UNMULTIPLIER: nat := 61

  function KeyOf(i: nat): Key
    requires i < KEYS
  {
    Key([i], Number(i) * UNMULTIPLIER % 128)
  }

  function EntryOf(i: nat): Entry
    requires i < KEYS
  {
    Entry(KeyOf(i), i + 1)
  }

  /** Multiplying by the inverse first makes the low seven bits of the product come out as `b`. */
  lemma HashInverts(b: nat) returns (u: nat)
    requires b < 128
    ensures FibHash(b * UNMULTIPLIER % 128) == 128 * u + b
  {
    var q, h := SplitBy(b * UNMULTIPLIER, 128);
    var w, low := SplitBy(h * FIB_MULTIPLIER, WORD_RANGE);
    SmallHash(h);
    u := Quotient(b, q, h, w, low);
  }

  lemma SmallHash(h: nat)
    requires h < 128
    ensures FibHash(h) == h * FIB_MULTIPLIER % WORD_RANGE
  {
    assert h % HASH_RANGE == h;
  }

  lemma Quotient(b: nat, q: nat, h: nat, w: nat, low: nat) returns (u: nat)
    requires b < 128 && b * 61 == q * 128 + h && h * FIB_MULTIPLIER == w * WORD_RANGE + low
    ensures low == 128 * u + b
  {
    var v: int := h * 89068084525962488 + 10 * b - 21 * q - w * 144115188075855872;
    assert low == 128 * v + b;
    u := v;
  }

  lemma Residues(u: nat, b: nat)
    requires b < 128
    ensures (128 * u + b) % 32 == b % 32 && (128 * u + b) % 64 == b % 64 && (128 * u + b) % 128 == b
  {
    DivModUnique(128 * u + b, 32, 4 * u + b / 32, b % 32);
    DivModUnique(128 * u + b, 64, 2 * u + b / 64, b % 64);
    DivModUnique(128 * u + b, 128, u, b);
  }

  lemma Powers()
    ensures Pow2(5) == 32 && Pow2(6) == 64 && Pow2(7) == 128
    ensures Capacity(5) == 37 && Capacity(6) == 70 && Capacity(7) == 135
  {
    assert Pow2(5) == 32;
    assert Pow2(6) == 64;
  }

  lemma LowBitsOf(u: nat, b: nat)
    requires b < 128
    ensures LowBits(128 * u + b, 5) == b % 32 && LowBits(128 * u + b, 6) == b % 64 && LowBits(128 * u + b, 7) == b
  {
    var x := 128 * u + b;
    Residues(u, b);
    ModuloPower(x, 5, 32);
    ModuloPower(x, 6, 64);
    ModuloPower(x, 7, 128);
  }

  lemma ModuloPower(x: nat, n: nat, p: nat)
    requires (n == 5 && p == 32) || (n == 6 && p == 64) || (n == 7 && p == 128)
    ensures LowBits(x, n) == x % p
  {
    LowBitsIsModulo(x, n);
    Powers();
  }

  /** Buckets of the keys for 32, 64 and 128 buckets. */
  lemma Buckets(i: nat)
    requires i < KEYS
    ensures KeyBucket(KeyOf(i), 5) == Number(i) % 32
    ensures KeyBucket(KeyOf(i), 6) == Number(i) % 64
    ensures KeyBucket(KeyOf(i), 7) == Number(i)
  {
    var b := Number(i);
    var u := HashInverts(b);
    LowBitsOf(u, b);
    assert KeyOf(i).hash == b * UNMULTIPLIER % 128;
  }

  /** The first `n` keys with their values. */
  function Bound(n: nat): map<Key, Pointer>
    requires n <= KEYS
  {
    if n == 0 then map[] else Bound(n - 1)[KeyOf(n - 1) := n]
  }

  lemma {:induction false} BoundKeys(n: nat, i: nat)
    requires n <= KEYS && i < KEYS
    ensures KeyOf(i) in Bound(n) <==> i < n
    ensures i < n ==> Bound(n)[KeyOf(i)] == i + 1
  {
    if n > 0 {
      BoundKeys(n - 1, i);
      assert KeyOf(i).bytes == [i] && KeyOf(n - 1).bytes == [n - 1];
      assert i != n - 1 ==> [i][0] != [n - 1][0];
    }
  }

  // ---------- filling 32 buckets ----------

  /** Where key `i` is put among 32 buckets. */
  function First(i: nat): (p: nat)
    requires i < 19
    ensures p >= Number(i) % 32
  {
    if i < 12 then i else 19 + i
  }

  /** The key that is put at `p` among 32 buckets, or -1. */
  function FirstAt(p: nat): (i: int)
    ensures i < 19 && (i >= 0 ==> First(i) == p)
  {
    if p < 12 then p else if 31 <= p <= 37 then p - 19 else -1
  }

  function FirstSlot(i: nat): Slot
    requires i < 19
  {
    Used(EntryOf(i), First(i) - Number(i) % 32)
  }

  function FilledAt(k: nat, p: nat): Slot {
    if 0 <= FirstAt(p) < k then FirstSlot(FirstAt(p)) else Empty
  }

  /** The first `k` keys in a table of `n` slots. */
  function Filled(k: nat, n: nat): (t: Table)
    ensures |t| == n && forall p :: 0 <= p < n ==> t[p] == FilledAt(k, p)
  {
    seq(n, p requires 0 <= p < n => FilledAt(k, p))
  }

  /** 32 buckets with the first `k` keys. */
  function FilledDict(k: nat): Dict {
    Dict(5, Filled(k, 37), 0, -1, k, k, k, 0)
  }

  lemma FillGap(k: nat)
    requires k < 18
    ensures Gap(Filled(k, 37), Number(k) % 32, First(k)) && First(k) < 37
    ensures Filled(k, 37)[First(k) := FirstSlot(k)] == Filled(k + 1, 37)
  {
    var t := Filled(k, 37);
    assert FirstAt(First(k)) == k;
    forall j | Number(k) % 32 <= j < First(k) ensures t[j].Used? && Bucket(t, j) <= Number(k) % 32 {
      assert t[j] == FilledAt(k, j);
    }
  }

  lemma FirstSlotFor(i: nat)
    requires i < 19
    ensures KeyBucket(KeyOf(i), 5) == Number(i) % 32 && SlotFor(EntryOf(i), 5, First(i)) == FirstSlot(i)
  {
    Buckets(i);
  }

  function InsertionOf(i: nat): Op
    requires i < KEYS
  {
    DoInsert(KeyOf(i), i + 1)
  }

  /** The insertions of all keys. */
  function Insertions(): (ops: seq<Op>)
    ensures |ops| == KEYS && forall i :: 0 <= i < KEYS ==> ops[i] == InsertionOf(i)
  {
    seq(KEYS, i requires 0 <= i < KEYS => InsertionOf(i))
  }

  lemma FillPremises(k: nat)
    requires k < 18
    ensures FillsGap(FilledDict(k), EntryOf(k), First(k), FilledDict(k + 1))
  {
    FillGap(k);
    FirstSlotFor(k);
    Powers();
  }

  lemma FillOne(d: Dict, k: nat, e: Dict)
    requires k < 18 && Stands(d, Bound(k)) && FillsGap(d, EntryOf(k), First(k), e)
    ensures Stands(e, Bound(k + 1)) && Leads(d, InsertionOf(k), e)
  {
    BoundKeys(k, k);
    InsertIntoGap(d, Bound(k), EntryOf(k), First(k), e);
    StepIs(d, KeyOf(k), k + 1);
  }

  /** Each dictionary becomes the next one by writing the next key into a gap. */
  predicate Filling(ds: seq<Dict>) {
    1 <= |ds| <= 19 && forall k :: 0 <= k < |ds| - 1 ==> FillsNext(ds, k)
  }

  predicate FillsNext(ds: seq<Dict>, k: nat)
    requires k + 1 < |ds| <= 19
  {
    FillsGap(ds[k], EntryOf(k), First(k), ds[k + 1])
  }

  lemma {:induction false} Fills(ds: seq<Dict>, ops: seq<Op>, n: nat)
    requires Filling(ds) && Stands(ds[0], map[]) && n < |ds| && ops == Insertions()
    ensures Stands(ds[n], Bound(n)) && Chained(ds, ops, n)
  {
    if n > 0 {
      Fills(ds, ops, n - 1);
      assert FillsNext(ds, n - 1);
      FillOne(ds[n - 1], n - 1, ds[n]);
      assert ops[n - 1] == InsertionOf(n - 1);
    }
  }

  lemma BindOne(n: nat)
    requires n < KEYS
    ensures MapStep(Bound(n), InsertionOf(n)) == Bound(n + 1)
  {
  }

  lemma {:induction false} InsertionsChain(ms: seq<map<Key, Pointer>>, ops: seq<Op>, n: nat)
    requires ops == Insertions() && n < |ms| <= KEYS + 1 && forall i :: 0 <= i < |ms| ==> ms[i] == Bound(i)
    ensures MapChained(ms, ops, n)
  {
    if n > 0 {
      InsertionsChain(ms, ops, n - 1);
      BindOne(n - 1);
    }
  }

  lemma InsertionsBind()
    ensures MapRun(map[], Insertions()[..18]).0 == Bound(18)
  {
    var ms, ops := seq(19, n requires 0 <= n < 19 => Bound(n)), Insertions();
    InsertionsChain(ms, ops, 18);
    MapChainedRun(ms, ops, 18);
  }

  lemma EmptyFilled()
    ensures NewDictOf(32) == FilledDict(0)
  {
    assert FloorLog2(32) == 5;
    Powers();
    assert Empties(37) == Filled(0, 37);
  }

  lemma FillingDicts() returns (ds: seq<Dict>)
    ensures Filling(ds) && |ds| == 19 && ds[0] == NewDictOf(32) && ds[18] == FilledDict(18)
  {
    EmptyFilled();
    ds := seq(19, k requires 0 <= k < 19 => FilledDict(k));
    forall k | 0 <= k < 18 ensures FillsNext(ds, k) {
      FillPremises(k);
    }
  }

  lemma FillingRun(ds: seq<Dict>, ops: seq<Op>)
    requires Filling(ds) && |ds| == 19 && ops == Insertions() && Stands(ds[0], map[]) && ds[0].numIterators == 0
    ensures Comes(ds[0], ops[..18], ds[18], 18)
  {
    Fills(ds, ops, 18);
    ChainedRun(ds, ops, 18);
  }

  lemma FilledRun()
    ensures Comes(NewDictOf(32), Insertions()[..18], FilledDict(18), 18)
  {
    NewDictStands(32);
    var ds := FillingDicts();
    FillingRun(ds, Insertions());
  }

  // ---------- the first pass ----------

  /** Where key `i` is put among 64 buckets. */
  function Second(i: nat): (p: nat)
    requires 1 <= i < 19
    ensures p >= Number(i) % 64 && 32 <= p < 70
  {
    if i == 1 then 32 else if i <= 4 then 37 - i else if i <= 11 then 32 + i else 81 - i
  }

  /** The key that is put at `p` among 64 buckets, or -1. */
  function SecondAt(p: nat): (i: int)
    ensures i < 19 && i != 0 && (i >= 0 ==> Second(i) == p)
  {
    if p == 32 then 1 else if 33 <= p <= 35 then 37 - p else if 37 <= p <= 43 then p - 32
    else if 63 <= p <= 69 then 81 - p else -1
  }

  function SecondSlot(i: nat): Slot
    requires 1 <= i < 19
  {
    Used(EntryOf(i), Second(i) - Number(i) % 64)
  }

  function ShiftedAt(k: nat, p: nat): Slot {
    if 0 <= FirstAt(p) < k then FirstSlot(FirstAt(p))
    else if 0 <= SecondAt(p) && k <= SecondAt(p) then SecondSlot(SecondAt(p))
    else Empty
  }

  /** 64 buckets: the first `k` keys where they were, the others moved to their new places. */
  function Shifted(k: nat): (t: Table)
    ensures |t| == 70 && forall p :: 0 <= p < 70 ==> t[p] == ShiftedAt(k, p)
  {
    seq(70, p requires 0 <= p < 70 => ShiftedAt(k, p))
  }

  function ShiftedDict(k: nat, remapEnd: int): Dict {
    Dict(6, Shifted(k), 1, remapEnd, 19, 19, 19, 0)
  }

  /** The slots between key `k`'s bucket and its new place hold keys moved before it. */
  lemma BelowSecond(k: nat, j: nat)
    requires 1 <= k < 19 && Number(k) % 64 <= j < Second(k)
    ensures SecondAt(j) > k && Number(SecondAt(j)) % 64 <= Number(k) % 64
    ensures !(0 <= FirstAt(j) <= k)
  {
  }

  lemma ShiftPullsNothing(k: nat)
    requires 1 <= k < 19
    ensures First(k) < 69 && ShiftedAt(k + 1, First(k)) == FirstSlot(k)
    ensures ShiftedAt(k + 1, First(k) + 1).Empty? || ShiftedAt(k + 1, First(k) + 1).distance == 0
  {
    assert FirstAt(First(k)) == k;
  }

  lemma ShiftGap(k: nat)
    requires 1 <= k < 19 && First(k) < 70
    ensures Gap(Shifted(k + 1)[First(k) := Empty], Number(k) % 64, Second(k))
  {
    var u := Shifted(k + 1)[First(k) := Empty];
    assert ShiftedAt(k + 1, Second(k)).Empty?;
    forall j | Number(k) % 64 <= j < Second(k) ensures u[j].Used? && Bucket(u, j) <= Number(k) % 64 {
      BelowSecond(k, j);
      assert u[j] == SecondSlot(SecondAt(j));
    }
  }

  lemma ShiftedStep(k: nat, p: nat)
    requires 1 <= k < 19 && p < 70 && First(k) < 70
    ensures Shifted(k + 1)[First(k) := Empty][Second(k) := SecondSlot(k)][p] == ShiftedAt(k, p)
  {
    assert FirstAt(First(k)) == k && SecondAt(Second(k)) == k;
  }

  /** Moving key `k`. */
  lemma ShiftedNext(k: nat)
    requires 1 <= k < 19 && First(k) < 70
    ensures Shifted(k + 1)[First(k) := Empty][Second(k) := SecondSlot(k)] == Shifted(k)
  {
    forall p | 0 <= p < 70
      ensures Shifted(k + 1)[First(k) := Empty][Second(k) := SecondSlot(k)][p] == Shifted(k)[p]
    {
      ShiftedStep(k, p);
    }
  }

  lemma UpperHalf(i: nat)
    requires 1 <= i < 19
    ensures Number(i) % 64 != Number(i) % 32
  {
    assert Number(i) % 64 >= 32;
  }

  lemma SecondSlotFor(i: nat)
    requires 1 <= i < 19
    ensures KeyBucket(KeyOf(i), 6) == Number(i) % 64 && SlotFor(EntryOf(i), 6, Second(i)) == SecondSlot(i)
  {
    Buckets(i);
  }

  lemma ShiftMove(k: nat)
    requires 1 <= k < 19
    ensures GapAfter(Shifted(k + 1), 6, First(k), Second(k))
    ensures Moved(Shifted(k + 1), First(k), 6, Second(k)) == Shifted(k)
  {
    ShiftPullsNothing(k);
    ShiftGap(k);
    ShiftedNext(k);
    FirstSlotFor(k);
    SecondSlotFor(k);
    UpperHalf(k);
    assert Capacity(6) == 70 by { Powers(); }
  }

  /** `remapEnd` before key `k` is moved. */
  function EndBefore(k: nat): nat
    requires k < 19
  {
    if k == 18 then 37 else First(k + 1)
  }

  lemma ShiftTurn(k: nat)
    requires 1 <= k < 19
    ensures TurnsInto(ShiftedDict(k + 1, EndBefore(k)), First(k), Second(k), ShiftedDict(k, First(k)))
  {
    ShiftMove(k);
    var t := Shifted(k + 1);
    forall p | First(k) < p <= EndBefore(k) ensures t[p] == Empty {
      assert t[p] == ShiftedAt(k + 1, p);
    }
  }

  function FirstState(n: nat): Dict
    requires n <= 16
  {
    ShiftedDict(19 - n, EndBefore(18 - n))
  }

  lemma FirstTurn(n: nat)
    requires n < 16
    ensures TurnsInto(FirstState(n), First(18 - n), Second(18 - n), FirstState(n + 1))
  {
    ShiftTurn(18 - n);
  }

  /** The first pass makes sixteen moves, of the keys 18 down to 3. */
  function FirstStretch(): (s: Stretch)
    ensures |s.states| == 17 && |s.from| == |s.to| == 16
    ensures forall n :: 0 <= n < 17 ==> s.states[n] == FirstState(n)
    ensures forall n :: 0 <= n < 16 ==> s.from[n] == First(18 - n) && s.to[n] == Second(18 - n)
  {
    Stretch(
      seq(17, n requires 0 <= n < 17 => FirstState(n)),
      seq(16, n requires 0 <= n < 16 => First(18 - n)),
      seq(16, n requires 0 <= n < 16 => Second(18 - n)))
  }

  lemma FirstPassing(s: Stretch)
    requires s == FirstStretch()
    ensures Passing(s)
  {
    forall n | 0 <= n < 16 ensures PassesOn(s, n) {
      FirstTurn(n);
      PassesOnIf(s, n, FirstState(n), First(18 - n), Second(18 - n), FirstState(n + 1));
    }
  }

  lemma FirstEnds()
    ensures FirstState(0) == ShiftedDict(19, 37) && FirstState(16) == ShiftedDict(3, 3)
  {
  }

  lemma FirstPass(d: Dict)
    requires d == ShiftedDict(19, 37) && Shape(d)
    ensures LeadsTo(d, 16, ShiftedDict(3, 3), 0)
  {
    FirstEnds();
    var s := FirstStretch();
    FirstPassing(s);
    PassThrough(s, 16, 16);
  }

  lemma FirstGrown(p: nat)
    requires p < 70
    ensures (Filled(18, 37) + Empties(33))[37 := FirstSlot(18)][p] == ShiftedAt(19, p)
  {
  }

  lemma FilledEnd()
    ensures Gap(Filled(18, 37), 31, 37)
  {
    var t := Filled(18, 37);
    forall j | 31 <= j < 37 ensures t[j].Used? && Bucket(t, j) <= 31 {
      assert t[j] == FilledAt(18, j);
    }
  }

  lemma FirstGrownTable()
    ensures (Filled(18, 37) + Empties(33))[37 := FirstSlot(18)] == Shifted(19)
  {
    var t := Shifted(19);
    forall p | 0 <= p < 70 ensures (Filled(18, 37) + Empties(33))[37 := FirstSlot(18)][p] == t[p] {
      FirstGrown(p);
    }
  }

  lemma LastFirstSlotFor()
    ensures KeyBucket(KeyOf(18), 5) == 31 && SlotFor(EntryOf(18), 5, 37) == FirstSlot(18)
  {
    Buckets(18);
  }

  /** Key 18 does not fit behind the other keys of bucket 31. */
  lemma FirstGrowth()
    ensures GrowsInto(FilledDict(18), EntryOf(18), ShiftedDict(19, 37))
  {
    FilledEnd();
    FirstGrownTable();
    LastFirstSlotFor();
    assert ThresholdEntries(5) == 28 && Capacity(5) == 37 && Capacity(6) == 70 by { Powers(); }
  }

  lemma ShiftLookup(k: nat)
    requires 1 <= k <= 2 && Stands(ShiftedDict(k + 1, 3), Bound(19))
    ensures Leads(ShiftedDict(k + 1, 3), DoLookup(KeyOf(k)), ShiftedDict(k, 3)) && Stands(ShiftedDict(k, 3), Bound(19))
  {
    ShiftMove(k);
    ShiftPullsNothing(k);
    LookupIntoGap(ShiftedDict(k + 1, 3), Bound(19), KeyOf(k), k, Second(k), ShiftedDict(k, 3));
    StepIs(ShiftedDict(k + 1, 3), KeyOf(k), 0);
  }

  // ---------- the second pass ----------

  const PASSED: nat := 15

  /** The key that the second pass moves in its move `n`, before the last one. */
  function Mover(n: nat): (i: nat)
    requires n < PASSED
    ensures i < KEYS
  {
    if n == 0 then 19 else if n < 8 then n + 11 else 19 - n
  }

  function Source(n: nat): (p: nat)
    requires n < PASSED
    ensures Number(Mover(n)) % 64 <= p < 71
  {
    if n < 8 then 70 - n else 51 - n
  }

  function SourceAt(p: nat): (n: int)
    ensures n < PASSED && (n >= 0 ==> Source(n) == p)
  {
    if 63 <= p <= 70 then 70 - p else if 37 <= p <= 43 then 51 - p else -1
  }

  function Target(n: nat): (p: nat)
    requires n < PASSED
    ensures Number(Mover(n)) <= p < 135
  {
    if n < 8 then 127 + n else 115 - n
  }

  function TargetAt(p: nat): (n: int)
    ensures n < PASSED && (n >= 0 ==> Target(n) == p)
  {
    if 127 <= p <= 134 then p - 127 else if 101 <= p <= 107 then 115 - p else -1
  }

  function SourceSlot(n: nat): Slot
    requires n < PASSED
  {
    Used(EntryOf(Mover(n)), Source(n) - Number(Mover(n)) % 64)
  }

  function TargetSlot(n: nat): Slot
    requires n < PASSED
  {
    Used(EntryOf(Mover(n)), Target(n) - Number(Mover(n)))
  }

  function DoubledAt(n: nat, p: nat): Slot {
    if p == 0 then FirstSlot(0)
    else if 32 <= p <= 35 then SecondSlot(SecondAt(p))
    else if 0 <= SourceAt(p) && n <= SourceAt(p) then SourceSlot(SourceAt(p))
    else if 0 <= TargetAt(p) < n then TargetSlot(TargetAt(p))
    else Empty
  }

  /** 128 buckets after `n` moves. */
  function Doubled(n: nat): (t: Table)
    ensures |t| == 135 && forall p :: 0 <= p < 135 ==> t[p] == DoubledAt(n, p)
  {
    seq(135, p requires 0 <= p < 135 => DoubledAt(n, p))
  }

  function DoubledDict(n: nat): Dict
    requires n <= PASSED
  {
    Dict(7, Doubled(n), 2, if n == 0 then 70 else Source(n - 1), 20, 20, 20, 0)
  }

  lemma SecondGrown(p: nat)
    requires p < 135
    ensures (Shifted(1) + Empties(65))[70 := SourceSlot(0)][p] == DoubledAt(0, p)
  {
    assert p < 70 ==> (Shifted(1) + Empties(65))[p] == ShiftedAt(1, p);
  }

  lemma ShiftedEnd()
    ensures Gap(Shifted(1), 63, 70)
  {
    var t := Shifted(1);
    forall j | 63 <= j < 70 ensures t[j].Used? && Bucket(t, j) <= 63 {
      assert t[j] == ShiftedAt(1, j) == SecondSlot(SecondAt(j));
    }
  }

  lemma SecondGrownTable()
    ensures (Shifted(1) + Empties(65))[70 := SourceSlot(0)] == Doubled(0)
  {
    var t := Doubled(0);
    forall p | 0 <= p < 135 ensures (Shifted(1) + Empties(65))[70 := SourceSlot(0)][p] == t[p] {
      SecondGrown(p);
    }
  }

  lemma LastSlotFor()
    ensures KeyBucket(KeyOf(19), 6) == 63 && SlotFor(EntryOf(19), 6, 70) == SourceSlot(0)
  {
    Buckets(19);
  }

  /** Key 19 does not fit behind the other keys of bucket 63. */
  lemma SecondGrowth()
    ensures GrowsInto(ShiftedDict(1, 3), EntryOf(19), DoubledDict(0))
  {
    ShiftedEnd();
    SecondGrownTable();
    LastSlotFor();
    assert ThresholdEntries(6) == 53 && Capacity(6) == 70 && Capacity(7) == 135 by { Powers(); }
  }

  lemma TargetSlotFor(n: nat)
    requires n < PASSED
    ensures KeyBucket(KeyOf(Mover(n)), 7) == Number(Mover(n))
    ensures SlotFor(EntryOf(Mover(n)), 7, Target(n)) == TargetSlot(n)
  {
    Buckets(Mover(n));
  }

  lemma DoubledGap(n: nat)
    requires n < PASSED
    ensures Doubled(n)[Source(n)] == SourceSlot(n) && NothingToPull(Doubled(n), Source(n))
    ensures Gap(Doubled(n)[Source(n) := Empty], Number(Mover(n)), Target(n))
  {
    var t := Doubled(n);
    assert SourceAt(Source(n)) == n && TargetAt(Target(n)) == n;
    assert t[Source(n) + 1] == DoubledAt(n, Source(n) + 1);
    var u := t[Source(n) := Empty];
    forall j | Number(Mover(n)) <= j < Target(n) ensures u[j].Used? && Bucket(u, j) <= Number(Mover(n)) {
      assert u[j] == DoubledAt(n, j) == TargetSlot(TargetAt(j));
    }
  }

  lemma DoubledStep(n: nat, p: nat)
    requires n < PASSED && p < 135
    ensures Doubled(n)[Source(n) := Empty][Target(n) := TargetSlot(n)][p] == DoubledAt(n + 1, p)
  {
    assert SourceAt(Source(n)) == n && TargetAt(Target(n)) == n;
  }

  lemma DoubledNext(n: nat)
    requires n < PASSED
    ensures Doubled(n)[Source(n) := Empty][Target(n) := TargetSlot(n)] == Doubled(n + 1)
  {
    var u := Doubled(n + 1);
    forall p | 0 <= p < 135 ensures Doubled(n)[Source(n) := Empty][Target(n) := TargetSlot(n)][p] == u[p] {
      DoubledStep(n, p);
    }
  }

  lemma DoubledTurn(n: nat)
    requires n < PASSED
    ensures TurnsInto(DoubledDict(n), Source(n), Target(n), DoubledDict(n + 1))
  {
    DoubledGap(n);
    DoubledNext(n);
    TargetSlotFor(n);
    Powers();
    var t := Doubled(n);
    forall p | Source(n) < p <= DoubledDict(n).remapEnd ensures t[p] == Empty {
      assert t[p] == DoubledAt(n, p);
    }
  }

  function SecondStretch(): (s: Stretch)
    ensures |s.states| == 16 && |s.from| == |s.to| == 15
    ensures forall n :: 0 <= n < 16 ==> s.states[n] == DoubledDict(n)
    ensures forall n :: 0 <= n < 15 ==> s.from[n] == Source(n) && s.to[n] == Target(n)
  {
    Stretch(
      seq(16, n requires 0 <= n < 16 => DoubledDict(n)),
      seq(15, n requires 0 <= n < 15 => Source(n)),
      seq(15, n requires 0 <= n < 15 => Target(n)))
  }

  lemma SecondPassing(s: Stretch)
    requires s == SecondStretch()
    ensures Passing(s)
  {
    forall n | 0 <= n < 15 ensures PassesOn(s, n) {
      DoubledTurn(n);
      PassesOnIf(s, n, DoubledDict(n), Source(n), Target(n), DoubledDict(n + 1));
    }
  }

  lemma SecondPass(d: Dict)
    requires d == DoubledDict(0) && Shape(d)
    ensures LeadsTo(d, 16, DoubledDict(15), 1)
  {
    var s := SecondStretch();
    SecondPassing(s);
    PassThrough(s, 15, 16);
  }

  /** The table after the second pass: its last move pulled key 2 down to where key 3 was. */
  function Final(): (t: Table)
    ensures |t| == 135
    ensures t[34] == Used(EntryOf(2), 1) && t[35] == Empty && t[97] == Used(EntryOf(3), 0)
    ensures forall p :: 0 <= p < 135 && p != 34 && p != 35 && p != 97 ==> t[p] == DoubledAt(15, p)
  {
    Doubled(15)[34 := Used(EntryOf(2), 1)][35 := Empty][97 := Used(EntryOf(3), 0)]
  }

  function FinalDict(): Dict {
    Dict(7, Final(), 2, 34, 20, 20, 20, 0)
  }

  lemma LastBuckets()
    ensures KeyBucket(KeyOf(0), 7) == 32 && KeyBucket(KeyOf(1), 7) == 32 && KeyBucket(KeyOf(2), 7) == 33
    ensures KeyBucket(KeyOf(3), 7) == 97 && KeyBucket(KeyOf(4), 7) == 97 && Capacity(7) == 135
  {
    Buckets(0);
    Buckets(1);
    Buckets(2);
    Buckets(3);
    Buckets(4);
    Powers();
  }

  lemma LastValues()
    ensures DoubledAt(15, 34) == Used(EntryOf(3), 1) && DoubledAt(15, 35) == Used(EntryOf(2), 2)
  {
    assert SecondAt(34) == 3 && SecondAt(35) == 2;
  }

  lemma LastGaps()
    ensures DoubledAt(15, 36) == Empty && DoubledAt(15, 37) == Empty && DoubledAt(15, 97) == Empty
  {
    assert SourceAt(36) == -1 && SourceAt(37) == 14 && SourceAt(97) == -1;
    assert TargetAt(36) == -1 && TargetAt(37) == -1 && TargetAt(97) == -1;
  }

  lemma LastSlots()
    ensures var t := Doubled(15);
            && t[34] == Used(EntryOf(3), 1) && t[35] == Used(EntryOf(2), 2) && t[36] == t[37] == t[97] == Empty
  {
    LastValues();
    LastGaps();
  }

  lemma FinalIsPulled()
    ensures PullsOne(Doubled(15), 34) && Final() == PulledDown(Doubled(15), 34)[97 := Used(EntryOf(3), 0)]
  {
    LastSlots();
  }

  lemma LastTurn(d: Dict)
    requires d == DoubledDict(15) && Shape(d)
    ensures LeadsTo(d, 1, FinalDict(), 0)
  {
    LastBuckets();
    LastSlots();
    FinalIsPulled();
    SkipDown(d, 1, 34);
    PullAndMove(d.(remapEnd := 34), 97, FinalDict());
  }

  // ---------- the run ----------

  /** Nineteen insertions. */
  function Growing(): seq<Op> {
    Insertions()[..18] + [InsertionOf(18)]
  }

  /** Nineteen insertions and two lookups. */
  function Looking(): seq<Op> {
    Growing() + [DoLookup(KeyOf(2))] + [DoLookup(KeyOf(1))]
  }

  /** Twenty insertions and two lookups. */
  function Approach(): seq<Op> {
    Looking() + [InsertionOf(19)]
  }

  lemma InsertNext(d: Dict, n: nat, g: Dict, e: Dict)
    requires n < KEYS && Stands(d, Bound(n)) && GrowsInto(d, EntryOf(n), g)
    requires LeadsTo(g, 16, e, 0) && e.remapEnd >= 0
    ensures Leads(d, InsertionOf(n), e) && Stands(e, Bound(n + 1))
  {
    BoundKeys(n, n);
    InsertAndPass(d, Bound(n), EntryOf(n), g, e);
  }

  lemma FirstInsertAtEnd(d: Dict, e: Dict)
    requires d == FilledDict(18) && e == ShiftedDict(3, 3) && Stands(d, Bound(18))
    ensures Leads(d, InsertionOf(18), e) && Stands(e, Bound(19))
  {
    var g := ShiftedDict(19, 37);
    FirstGrowth();
    GrownShape(d, EntryOf(18), g);
    FirstPass(g);
    InsertNext(d, 18, g, e);
  }

  lemma SecondInsertAtEnd(d: Dict, e: Dict)
    requires d == ShiftedDict(1, 3) && e == FinalDict() && Stands(d, Bound(19))
    ensures Leads(d, InsertionOf(19), e) && Stands(e, Bound(20))
  {
    var g := DoubledDict(0);
    SecondGrowth();
    GrownShape(d, EntryOf(19), g);
    SecondPass(g);
    LastTurn(DoubledDict(15));
    InsertNext(d, 19, g, e);
  }

  /** `ops` lead from `d` to `e`, which stands for the first `n` keys. */
  ghost predicate Comes(d: Dict, ops: seq<Op>, e: Dict, n: nat)
    requires n <= KEYS
  {
    && WellFormed(d) && d.numIterators == 0 && Run(d, ops).0 == e && Stands(e, Bound(n))
  }

  lemma ComesThen(d: Dict, ops: seq<Op>, e: Dict, n: nat, op: Op, f: Dict, n': nat)
    requires n <= KEYS && n' <= KEYS && Comes(d, ops, e, n) && Leads(e, op, f) && Stands(f, Bound(n'))
    ensures Comes(d, ops + [op], f, n')
  {
    RunThen(d, ops, op, e, f);
  }

  lemma GrowsOnce(d: Dict, ops: seq<Op>, e: Dict, f: Dict)
    requires e == FilledDict(18) && f == ShiftedDict(3, 3) && Comes(d, ops, e, 18)
    ensures Comes(d, ops + [InsertionOf(18)], f, 19)
  {
    FirstInsertAtEnd(e, f);
    ComesThen(d, ops, e, 18, InsertionOf(18), f, 19);
  }

  lemma GrownOnce(d: Dict, f: Dict)
    requires d == NewDictOf(32) && f == ShiftedDict(3, 3)
    ensures Comes(d, Growing(), f, 19)
  {
    var e := FilledDict(18);
    FilledRun();
    GrowsOnce(d, Insertions()[..18], e, f);
  }

  lemma LookedUp(d: Dict, ops: seq<Op>, k: nat)
    requires 1 <= k <= 2 && Comes(d, ops, ShiftedDict(k + 1, 3), 19)
    ensures Comes(d, ops + [DoLookup(KeyOf(k))], ShiftedDict(k, 3), 19)
  {
    ShiftLookup(k);
    ComesThen(d, ops, ShiftedDict(k + 1, 3), 19, DoLookup(KeyOf(k)), ShiftedDict(k, 3), 19);
  }

  lemma BothLookedUp()
    ensures Comes(NewDictOf(32), Looking(), ShiftedDict(1, 3), 19)
  {
    GrownOnce(NewDictOf(32), ShiftedDict(3, 3));
    LookedUp(NewDictOf(32), Growing(), 2);
    LookedUp(NewDictOf(32), Growing() + [DoLookup(KeyOf(2))], 1);
  }

  /** The run grows the table twice and leaves both resizes outstanding. */
  lemma Reached()
    ensures Comes(NewDictOf(32), Approach(), FinalDict(), 20)
  {
    BothLookedUp();
    SecondInsertAtEnd(ShiftedDict(1, 3), FinalDict());
    ComesThen(NewDictOf(32), Looking(), ShiftedDict(1, 3), 19, InsertionOf(19), FinalDict(), 20);
  }

  lemma ApproachBinds()
    ensures MapRun(map[], Approach()).0 == Bound(20)
  {
    InsertionsBind();
    MapRunLast(map[], Insertions()[..18], InsertionOf(18));
    MapRunLast(map[], Growing(), DoLookup(KeyOf(2)));
    MapRunLast(map[], Growing() + [DoLookup(KeyOf(2))], DoLookup(KeyOf(1)));
    MapRunLast(map[], Looking(), InsertionOf(19));
  }

  // ---------- the lookup that loses a key ----------

  /** What matters of the state reached. */
  predicate Crowded(d: Dict) {
    && d.log2 == 7 && d.remaps == 2 && d.remapEnd == 34 && d.numIterators == 0 && |d.table| == 135
    && d.table[0] == Used(EntryOf(0), 0) && (forall p :: 1 <= p < 32 ==> d.table[p] == Empty)
    && d.table[32] == Used(EntryOf(1), 0) && d.table[33] == Used(EntryOf(4), 0)
    && d.table[34] == Used(EntryOf(2), 1) && d.table[35] == Empty
  }

  lemma LowSlots(p: nat)
    requires p < 34
    ensures Final()[p] == if p == 0 then FirstSlot(0) else if p >= 32 then SecondSlot(SecondAt(p)) else Empty
  {
    assert Final()[p] == DoubledAt(15, p);
  }

  lemma SlotValues()
    ensures FirstSlot(0) == Used(EntryOf(0), 0) && SecondSlot(1) == Used(EntryOf(1), 0) && SecondSlot(4) == Used(EntryOf(4), 0)
  {
  }

  lemma FinalGap(t: Table)
    requires t == Final()
    ensures forall p :: 1 <= p < 32 ==> t[p] == Empty
  {
    forall p | 1 <= p < 32 ensures t[p] == Empty {
      LowSlots(p);
    }
  }

  lemma FinalEntries(t: Table)
    requires t == Final()
    ensures t[0] == Used(EntryOf(0), 0) && t[32] == Used(EntryOf(1), 0) && t[33] == Used(EntryOf(4), 0)
  {
    LowSlots(0);
    LowSlots(32);
    LowSlots(33);
    SlotValues();
  }

  lemma FinalIsCrowded()
    ensures Crowded(FinalDict())
  {
    var t := Final();
    FinalEntries(t);
    FinalGap(t);
  }

  /** The run leads to a crowded table. */
  lemma Arrived() returns (d: Dict)
    ensures Crowded(d) && Stands(d, Bound(20)) && Run(NewDictOf(32), Approach()).0 == d
  {
    Reached();
    FinalIsCrowded();
    d := FinalDict();
  }

  /** Key 0 goes to slot 33, and key 4 from there to slot 35, past `remapEnd`. */
  function Lost(d: Dict): Dict
    requires Crowded(d)
  {
    d.(table := d.table[0 := Empty][33 := Used(EntryOf(0), 1)][35 := Used(EntryOf(4), 2)])
  }

  lemma KeyZeroMoves(d: Dict)
    requires Shape(d) && Crowded(d)
    ensures RemapAt(d, 0).0 == Lost(d) && !IsCurrent(d.table[0], 0, 7)
  {
    LastBuckets();
    var t := d.table[0 := Empty];
    assert NothingToPull(d.table, 0);
    EndOfClusterIs(t, 32, 32, 33);
    var (e, s, i) := Lifted(d, 0);
    assert e.table == t && s == Used(EntryOf(0), 1) && i == 33;
    DisplaceOver(t, s, i, 35);
  }

  lemma LookupLoses(d: Dict, m: map<Key, Pointer>)
    requires Stands(d, m) && Crowded(d)
    ensures Lookup(d, KeyOf(0)).0 == LookupIndex(d, KeyOf(0)).0 == Lost(d)
    ensures Shape(Lost(d)) && Represents(Lost(d).table, m)
    ensures KeyOf(4) in m && Find(Lost(d), KeyOf(4)).Miss? && !Safe(d, KeyOf(0))
  {
    KeyZeroMoves(d);
    LookupMoves(d, m, KeyOf(0), 0);
    LookupIndexCorrect(d, m, KeyOf(0));
    LastBuckets();
    StaleAboveIsLost(Lost(d), m, 35);
    LookupLosesNoKeyIff(d, m, KeyOf(0));
  }

  /** Twenty insertions and three lookups of stored keys; then a stored key looks absent. */
  function Losing(): seq<Op> {
    Approach() + [DoLookup(KeyOf(0))]
  }

  lemma LosingRun(d: Dict)
    requires Crowded(d) && Stands(d, Bound(20)) && Run(NewDictOf(32), Approach()).0 == d
    ensures Run(NewDictOf(32), Losing()).0 == Lost(d)
  {
    LookupLoses(d, Bound(20));
    StepIs(d, KeyOf(0), 0);
    RunThen(NewDictOf(32), Approach(), DoLookup(KeyOf(0)), d, Lost(d));
  }

  lemma MissReturnsNull(d: Dict, key: Key)
    requires Shape(d) && d.table != [] && d.numIterators == 0 && Find(d, key).Miss?
    ensures Step(d, DoLookup(key)).1 == NULL
  {
  }

  /** The losing run, and a lookup of key 4. */
  function Missing(): seq<Op> {
    Losing() + [DoLookup(KeyOf(4))]
  }

  lemma LastReturns(d: Dict)
    requires Shape(d) && d.numIterators == 0 && Find(d, KeyOf(4)).Miss? && d == Run(NewDictOf(32), Losing()).0
    ensures Run(NewDictOf(32), Missing()).1[|Losing()|].returned == NULL
  {
    MissReturnsNull(d, KeyOf(4));
    RunLast(NewDictOf(32), Losing(), DoLookup(KeyOf(4)), d);
  }

  lemma MapReturns()
    ensures MapRun(map[], Missing()).1[|Losing()|].returned == 5
  {
    ApproachBinds();
    MapRunLast(map[], Approach(), DoLookup(KeyOf(0)));
    BoundKeys(20, 4);
    MapRunLast(map[], Losing(), DoLookup(KeyOf(4)));
  }

  lemma RunsDiffer()
    ensures Run(NewDictOf(32), Missing()).1 != MapRun(map[], Missing()).1
  {
    var d := Arrived();
    LookupLoses(d, Bound(20));
    LosingRun(d);
    LastReturns(Lost(d));
    MapReturns();
  }

  /**
   Lookup-time relocation is not safe with two outstanding resizes: a run from a new dictionary whose
   last lookup returns null for a key that was bound and never removed.
   */
  lemma TwoResizesLoseAKey()
    ensures Run(NewDictOf(32), Missing()).1 != MapRun(map[], Missing()).1
    ensures var d := Run(NewDictOf(32), Approach()).0; d.remaps == 2 && !Safe(d, KeyOf(0))
  {
    RunsDiffer();
    var d := Arrived();
    LookupLoses(d, Bound(20));
  }

  lemma IdleAfterLoss(d: Dict, j: nat, value: Pointer)
    requires Shape(d) && Crowded(d) && Shape(Lost(d))
    ensures !Recovers(SetValue(Lost(d), 33, value), j, REMAP_ENTRIES)
  {
    var u := SetValue(Lost(d), 33, value);
    LastBuckets();
    forall p | 0 <= p <= u.remapEnd ensures IsCurrent(u.table[p], p, u.log2) {
      assert p == 0 || 1 <= p < 32 || p == 32 || p == 33 || p == 34;
    }
    IdlePassRecoversNothing(u, j, REMAP_ENTRIES);
  }

  lemma InsertLoses(d: Dict, m: map<Key, Pointer>, value: Pointer)
    requires Stands(d, m) && Crowded(d)
    ensures !InsertSafe(d, KeyOf(0), value)
  {
    LookupLoses(d, m);
    KeyZeroMoves(d);
    LookupMoves(d, m, KeyOf(0), 0);
    LookupIndexCorrect(d, m, KeyOf(0));
    UniquePosition(Lost(d).table, m, KeyOf(0), 33, LookupIndex(d, KeyOf(0)).1.position);
    IdleAfterLoss(d, StrayOf(d, KeyOf(0)), value);
  }

  lemma InsertLosesKey(d: Dict, m: map<Key, Pointer>, value: Pointer)
    requires Stands(d, m) && Crowded(d)
    ensures exists k :: k in m[KeyOf(0) := value] && Find(Insert(d, KeyOf(0), value).0, k).Miss?
  {
    InsertLoses(d, m, value);
    InsertLosesNoKeyIff(d, m, KeyOf(0), value);
  }

  /** Inserting over key 0 instead of looking it up loses a key too: its pass has nothing to move. */
  lemma TwoResizesLoseAKeyOnInsert(value: Pointer)
    ensures var d, m := Run(NewDictOf(32), Approach()).0, Bound(20)[KeyOf(0) := value];
            exists k :: k in m && Find(Insert(d, KeyOf(0), value).0, k).Miss?
  {
    var d := Arrived();
    InsertLosesKey(d, Bound(20), value);
  }
}
