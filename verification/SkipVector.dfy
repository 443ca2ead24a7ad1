/** The growing array under the B-heap: it stores nothing at a multiple of the block size. */
module SkipVectors {
  import opened Arithmetic
  import opened HeapAddressing

  /** End indices the vector can have: never just past a skipped slot. */
  predicate ValidEnd(k: nat, end: nat) {
    BlockOffset(k, end) != 1
  }

  /** Where the next element goes. */
  function PushIndex(k: nat, end: nat): nat {
    if Usable(k, end) then end else end + 1
  }

  /** The end after removing the last element. */
  function PopEnd(k: nat, end: nat): nat
    requires end > 0
  {
    if BlockOffset(k, end - 1) == 1 && end > 1 then end - 2 else end - 1
  }

  /** `prio_queue::size`: the end less the skipped slots below it. */
  function SizeOf(k: nat, end: nat): int {
    end - (end + BlockSize(k) - 1) / BlockSize(k)
  }

  /** The offset after `x`. */
  lemma NextOffset(k: nat, x: nat)
    requires k >= 1
    ensures BlockOffset(k, x) < BlockSize(k)
    ensures BlockOffset(k, x + 1) == if BlockOffset(k, x) == BlockSize(k) - 1 then 0 else BlockOffset(k, x) + 1
    ensures BlockSize(k) >= 2
  {
    var q, o := Split(k, x);
    NextCoordinates(k, q, o);
  }

  lemma NextCoordinates(k: nat, q: nat, o: nat)
    requires k >= 1 && o < BlockSize(k)
    ensures var x := q * BlockSize(k) + o;
            BlockOffset(k, x) == o && BlockOffset(k, x + 1) == if o == BlockSize(k) - 1 then 0 else o + 1
    ensures BlockSize(k) >= 2
  {
    var b := BlockSize(k);
    Coordinates(k, q, o);
    if o == b - 1 {
      Coordinates(k, q + 1, 0);
      assert (q + 1) * b + 0 == q * b + o + 1;
    } else {
      Coordinates(k, q, o + 1);
    }
  }

  /** A push stores at a usable index and passes over no other usable one. */
  lemma PushIndexUsable(k: nat, end: nat)
    requires k >= 1 && ValidEnd(k, end)
    ensures Usable(k, PushIndex(k, end)) && ValidEnd(k, PushIndex(k, end) + 1)
    ensures forall i: nat :: end <= i < PushIndex(k, end) ==> !Usable(k, i)
  {
    NextOffset(k, end);
    NextOffset(k, end + 1);
  }

  /** A pop removes the element at `end - 1` and trims no other usable index. */
  lemma PopEndFacts(k: nat, end: nat)
    requires k >= 1 && ValidEnd(k, end) && end > 0
    ensures Usable(k, end - 1) && ValidEnd(k, PopEnd(k, end))
    ensures forall i: nat :: PopEnd(k, end) <= i < end - 1 ==> !Usable(k, i)
  {
    NextOffset(k, end - 1);
    if end > 1 {
      NextOffset(k, end - 2);
    }
    Coordinates(k, 0, 0);
  }

  /** `push_back` followed by `pop_back` restores the end index. */
  lemma PushThenPop(k: nat, end: nat)
    requires k >= 1 && ValidEnd(k, end)
    ensures PopEnd(k, PushIndex(k, end) + 1) == end
  {
    NextOffset(k, end);
  }

  lemma SizeInBlock(k: nat, q: nat, o: nat)
    requires o < BlockSize(k)
    ensures SizeOf(k, q * BlockSize(k) + o) == q * BlockSize(k) + o - q - (if o > 0 then 1 else 0)
  {
    var b := BlockSize(k);
    if o > 0 {
      assert (q + 1) * b == q * b + b;
      DivModUnique(q * b + o + b - 1, b, q + 1, o - 1);
    } else {
      DivModUnique(q * b + b - 1, b, q, b - 1);
    }
  }

  /** The size counts the usable indices below the end. */
  lemma SizeStep(k: nat, n: nat)
    requires k >= 1
    ensures SizeOf(k, n + 1) == SizeOf(k, n) + (if Usable(k, n) then 1 else 0)
  {
    var b := BlockSize(k);
    var q, o := Split(k, n);
    Coordinates(k, q, o);
    SizeInBlock(k, q, o);
    if o == b - 1 {
      assert (q + 1) * b == n + 1;
      SizeInBlock(k, q + 1, 0);
    } else {
      SizeInBlock(k, q, o + 1);
    }
  }

  class SkipVector<T(0)> {
    const k: nat
    var data: array<T>
    var end: nat

    ghost predicate Valid()
      reads this
    {
      k >= 1 && ValidEnd(k, end) && end <= data.Length && data.Length % BlockSize(k) == 0
    }

    constructor (k: nat)
      requires k >= 1
      ensures this.k == k && Valid() && end == 0 && fresh(data)
    {
      this.k := k;
      data := new T[0];
      end := 0;
      new;
      Coordinates(k, 0, 0);
    }

    /** Append; every stored element keeps its index. */
    method PushBack(u: T) returns (idx: nat)
      requires Valid()
      modifies this, data
      ensures Valid() && (data == old(data) || fresh(data))
      ensures idx == PushIndex(k, old(end)) && end == idx + 1 && data[idx] == u
      ensures forall i :: 0 <= i < old(end) ==> data[i] == old(data[i])
    {
      PushIndexUsable(k, end);
      RoomInBlock(k, end, data.Length);
      if BlockOffset(k, end) != 0 {
        data[end] := u;
        idx := end;
        end := end + 1;
        return;
      }
      if end == data.Length {
        idx := Grow(u);
        return;
      }
      end := end + 1;
      data[end] := u;
      idx := end;
      end := end + 1;
    }

    /** A partly filled block lies inside the storage; an untouched one has room for two slots. */
    static lemma RoomInBlock(k: nat, end: nat, length: nat)
      requires k >= 1 && end <= length && length % BlockSize(k) == 0
      ensures BlockOffset(k, end) != 0 ==> end < length
      ensures BlockOffset(k, end) == 0 && end < length ==> end + 1 < length
      ensures BlockOffset(k, end) == 0 ==> end % BlockSize(k) == 0
    {
      var q, o := Split(k, end);
      Coordinates(k, q, o);
      var ql, ol := Split(k, length);
      DivModUnique(length, BlockSize(k), ql, ol);
      DivModUnique(end, BlockSize(k), q, o);
      if end + 1 == length && o == 0 {
        DivModUnique(length, BlockSize(k), q, 1);
        assert false;
      }
    }

    /** Double the storage, or start with 16 blocks, and store `u` in the first new block. */
    method Grow(u: T) returns (idx: nat)
      requires Valid() && end == data.Length && BlockOffset(k, end) == 0
      modifies this
      ensures Valid() && fresh(data)
      ensures idx == old(end) + 1 && end == idx + 1 && data[idx] == u
      ensures forall i :: 0 <= i < old(end) ==> data[i] == old(data[i])
    {
      var b := BlockSize(k);
      var desired := if data.Length != 0 then data.Length * 2 else b * 16;
      Doubled(data.Length, b);
      PushIndexUsable(k, end);
      NextOffset(k, end);
      var ptr := new T[desired];
      ptr[end + 1] := u;
      idx := end + 1;
      forall i | 0 <= i < end {
        ptr[i] := data[i];
      }
      data := ptr;
      end := idx + 1;
    }

    static lemma Doubled(n: nat, b: nat)
      requires b >= 1 && n % b == 0
      ensures (n * 2) % b == 0 && (b * 16) % b == 0
      ensures n != 0 ==> n >= b
    {
      var q, r := SplitBy(n, b);
      assert n * 2 == (2 * q) * b;
      DivModUnique(n * 2, b, 2 * q, 0);
      DivModUnique(b * 16, b, 16, 0);
      if q >= 1 {
        MulAtLeast(q, b);
      }
    }

    method PopBack()
      requires Valid() && end > 0
      modifies this`end
      ensures Valid() && end == PopEnd(k, old(end))
    {
      PopEndFacts(k, end);
      end := end - 1;
      if BlockOffset(k, end) == 1 {
        end := end - 1;
      }
    }
  }
}
