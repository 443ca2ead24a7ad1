/**
 Addresses of the heap of heaps: blocks of `2^k` indices, each holding a small binary heap in its
 slots 1 to `2^k - 1`, whose leaves have the roots of further blocks as children.
 */
module HeapAddressing {
  import opened Arithmetic

  /** Block size for `k >= 1`; slot 0 of every block is skipped. */
  function BlockSize(k: nat): (b: nat)
    ensures b >= 1
  {
    Pow2(k)
  }

  function BlockOffset(k: nat, x: nat): nat {
    And(x, BlockSize(k) - 1)
  }

  /** `node_no & ~block_mask`. */
  function BlockBase(k: nat, x: nat): int {
    x - BlockOffset(k, x)
  }

  predicate IsBlockRoot(k: nat, x: nat) {
    BlockOffset(k, x) == 1
  }

  predicate IsBlockLeaf(k: nat, x: nat) {
    And(x, BlockSize(k) / 2) != 0
  }

  function ChildNo(k: nat, x: nat): nat {
    And(x, (BlockSize(k) - 1) / 2)
  }

  function ChildOf(k: nat, x: nat): int {
    if !IsBlockLeaf(k, x) then x + BlockOffset(k, x)
    else
      var base := BlockBase(k, x) + 1;
      base * BlockSize(k) + ChildNo(k, x) * BlockSize(k) * 2 + 1
  }

  /** Distance from the left child to the right one: the next slot, or the next block. */
  function SiblingOffset(k: nat, x: nat): nat {
    if IsBlockLeaf(k, x) then BlockSize(k) else 1
  }

  function ParentOf(k: nat, x: nat): int
    requires x != 1 && (IsBlockRoot(k, x) ==> BlockBase(k, x) / BlockSize(k) >= 1)
  {
    var nodeRoot := BlockBase(k, x);
    if !IsBlockRoot(k, x) then nodeRoot + BlockOffset(k, x) / 2
    else
      var parentBase := BlockBase(k, nodeRoot / BlockSize(k) - 1);
      var child := ((x - BlockSize(k)) / BlockSize(k) - parentBase) / 2;
      parentBase + BlockSize(k) / 2 + child
  }

  predicate Usable(k: nat, x: nat) {
    BlockOffset(k, x) != 0
  }

  // ---------- in coordinates: block q, offset o ----------

  lemma Coordinates(k: nat, q: nat, o: nat)
    requires k >= 1 && o < BlockSize(k)
    ensures var b, x := BlockSize(k), q * BlockSize(k) + o;
            && b % 2 == 0
            && BlockOffset(k, x) == o
            && BlockBase(k, x) == q * b
            && (IsBlockLeaf(k, x) <==> o >= b / 2)
            && ChildNo(k, x) == if o >= b / 2 then o - b / 2 else o
  {
    var h := Pow2(k - 1);
    var x := q * BlockSize(k) + o;
    assert BlockSize(k) == 2 * h && (BlockSize(k) - 1) / 2 == h - 1;
    HalfResidues(q, o, h);
    AndLowMask(x, k);
    AndLowMask(x, k - 1);
    AndBit(x, k - 1);
    LowBitsIsModulo(x, k);
  }

  lemma Split(k: nat, x: nat) returns (q: nat, o: nat)
    ensures o < BlockSize(k) && x == q * BlockSize(k) + o
  {
    q, o := SplitBy(x, BlockSize(k));
  }

  /** Index `x` is slot `o` of the block that starts at `base`. */
  predicate At(k: nat, x: nat, base: nat, o: nat) {
    var b := BlockSize(k);
    && b % 2 == 0 && o < b && x == base + o && BlockOffset(k, x) == o && BlockBase(k, x) == base
    && (IsBlockLeaf(k, x) <==> o >= b / 2) && ChildNo(k, x) == if o >= b / 2 then o - b / 2 else o
  }

  lemma Locate(k: nat, q: nat, base: nat, o: nat)
    requires k >= 1 && o < BlockSize(k) && base == q * BlockSize(k)
    ensures At(k, base + o, base, o)
  {
    Coordinates(k, q, o);
  }

  /** Inside a block, the children of slot `o` are the slots `2 o` and `2 o + 1`. */
  lemma ChildInBlock(k: nat, x: nat, base: nat, o: nat)
    requires At(k, x, base, o) && 0 < o < BlockSize(k) / 2
    ensures ChildOf(k, x) == base + 2 * o && SiblingOffset(k, x) == 1
  {
  }

  /** Leaf `c` of a block has the roots of block `m`, which starts at `start`, and of the next one as children. */
  lemma ChildOfLeaf(k: nat, x: nat, base: nat, c: nat, m: nat, start: nat)
    requires At(k, x, base, BlockSize(k) / 2 + c) && m == base + 1 + 2 * c && start == m * BlockSize(k)
    ensures ChildOf(k, x) == start + 1 && SiblingOffset(k, x) == BlockSize(k)
  {
    LeafProduct(base + 1, c, BlockSize(k), m);
  }

  lemma LeafProduct(n: nat, c: nat, b: nat, m: nat)
    requires m == n + 2 * c
    ensures n * b + c * b * 2 == m * b
  {
    assert (2 * c) * b == c * b * 2;
  }

  lemma NextBlock(m: nat, b: nat)
    ensures (m + 1) * b == m * b + b
  {
  }

  /** The block that a leaf's children live in determines the leaf. */
  lemma ParentOfRoot(k: nat, x: nat, base: nat, s: nat, m: nat, start: nat)
    requires At(k, base + s, base, s) && At(k, x, start, 1) && m == base + 1 + s && start == m * BlockSize(k)
    ensures HasParent(k, x, base + (BlockSize(k) / 2 + s / 2))
  {
    var b := BlockSize(k);
    DivModUnique(start, b, m, 0);
    NextBlock(m - 1, b);
    DivModUnique(x - b, b, m - 1, 1);
  }

  lemma ParentInBlock(k: nat, x: nat, base: nat, o: nat)
    requires At(k, x, base, o) && o > 1
    ensures HasParent(k, x, base + o / 2)
  {
  }

  // ---------- the shape of the tree ----------

  /** `p` is the parent of `x`, in a form that also says the parent is defined. */
  predicate HasParent(k: nat, x: nat, p: nat) {
    x != 1 && (IsBlockRoot(k, x) ==> BlockBase(k, x) / BlockSize(k) >= 1) && ParentOf(k, x) == p
  }

  lemma BlockAbove(q: nat, o: nat, b: nat, base: nat, m: nat, start: nat)
    requires o < b && m >= base + 1 && base == q * b && start == m * b
    ensures base + o < start + 1
  {
    MulMonotone(1, b, q);
    MulMonotone(q + 1, m, b);
    NextBlock(q, b);
  }

  /** Slot `o > 1` of a block and slot `o / 2`: the first is one of the two children of the second. */
  lemma SlotAndParent(k: nat, q: nat, o: nat, base: nat)
    requires k >= 1 && 1 < o < BlockSize(k) && base == q * BlockSize(k)
    ensures var x, p := base + o, base + o / 2;
            && p < x && HasParent(k, x, p) && Usable(k, x) && Usable(k, p)
            && ChildOf(k, p) + (if o % 2 == 1 then SiblingOffset(k, p) else 0) == x
  {
    Locate(k, q, base, o);
    Locate(k, q, base, o / 2);
    ParentInBlock(k, base + o, base, o);
    ChildInBlock(k, base + o / 2, base, o / 2);
  }

  lemma RootOfLeaf(k: nat, q: nat, s: nat, base: nat, m: nat, start: nat)
    requires k >= 1 && s < BlockSize(k) && base == q * BlockSize(k) && m == base + 1 + s && start == m * BlockSize(k)
    ensures HasParent(k, start + 1, base + (BlockSize(k) / 2 + s / 2)) && Usable(k, start + 1)
  {
    Locate(k, q, base, s);
    Locate(k, m, start, 1) by {
      Locate(k, 0, 0, 0);
    }
    ParentOfRoot(k, start + 1, base, s, m, start);
  }

  lemma LeafOfRoot(k: nat, q: nat, c: nat, base: nat, m: nat, start: nat)
    requires k >= 1 && c < BlockSize(k) / 2 && base == q * BlockSize(k)
    requires m == base + 1 + 2 * c && start == m * BlockSize(k)
    ensures var p := base + (BlockSize(k) / 2 + c);
            Usable(k, p) && p < start + 1 && ChildOf(k, p) == start + 1 && SiblingOffset(k, p) == BlockSize(k)
  {
    var b := BlockSize(k);
    Locate(k, 0, 0, 0);
    Locate(k, q, base, b / 2 + c);
    BlockAbove(q, b / 2 + c, b, base, m, start);
    ChildOfLeaf(k, base + (b / 2 + c), base, c, m, start);
  }

  /** Leaf `s / 2` of block `q` and the root of block `m`: the second is one of the two children of the first. */
  lemma LeafAndRoot(k: nat, q: nat, s: nat, base: nat, m: nat, start: nat)
    requires k >= 1 && s < BlockSize(k) && base == q * BlockSize(k) && m == base + 1 + s && start == m * BlockSize(k)
    ensures var x, p := start + 1, base + (BlockSize(k) / 2 + s / 2);
            && p < x && HasParent(k, x, p) && Usable(k, x) && Usable(k, p)
            && ChildOf(k, p) + (if s % 2 == 1 then SiblingOffset(k, p) else 0) == x
  {
    var b, first := BlockSize(k), m - s % 2;
    var from := first * b;
    NextBlock(first, b);
    RootOfLeaf(k, q, s, base, m, start);
    HalfOf(k, s);
    LeafOfRoot(k, q, s / 2, base, first, from);
  }

  lemma HalfOf(k: nat, s: nat)
    requires k >= 1 && s < BlockSize(k)
    ensures s / 2 < BlockSize(k) / 2
  {
    Locate(k, 0, 0, 0);
  }

  lemma InvertInBlock(k: nat, q: nat, o: nat, base: nat, x: nat)
    requires k >= 1 && 0 < o < BlockSize(k) / 2 && base == q * BlockSize(k) && x == base + o
    ensures var l := ChildOf(k, x); var r := l + SiblingOffset(k, x);
            x < l < r && Usable(k, l) && Usable(k, r) && HasParent(k, l, x) && HasParent(k, r, x)
  {
    SlotAndParent(k, q, 2 * o, base);
    SlotAndParent(k, q, 2 * o + 1, base);
    assert (2 * o) / 2 == o && (2 * o + 1) / 2 == o;
  }

  lemma InvertAtLeaf(k: nat, q: nat, c: nat, base: nat, x: nat)
    requires k >= 1 && c < BlockSize(k) / 2 && base == q * BlockSize(k) && x == base + (BlockSize(k) / 2 + c)
    ensures var l := ChildOf(k, x); var r := l + SiblingOffset(k, x);
            x < l < r && Usable(k, l) && Usable(k, r) && HasParent(k, l, x) && HasParent(k, r, x)
  {
    var b, m := BlockSize(k), base + 1 + 2 * c;
    assert (2 * c) / 2 == c && (2 * c + 1) / 2 == c;
    NextBlock(m, b);
    LeafAndRoot(k, q, 2 * c, base, m, m * b);
    LeafAndRoot(k, q, 2 * c + 1, base, m + 1, m * b + b);
  }

  /** `parent_of` inverts both children of `child_of`, and children come after their parent. */
  lemma ParentInvertsChild(k: nat, x: nat)
    requires k >= 1 && Usable(k, x)
    ensures var l := ChildOf(k, x); var r := l + SiblingOffset(k, x);
            x < l < r && Usable(k, l) && Usable(k, r) && HasParent(k, l, x) && HasParent(k, r, x)
  {
    var q, o := Split(k, x);
    var base := q * BlockSize(k);
    Locate(k, q, base, o);
    if o < BlockSize(k) / 2 {
      InvertInBlock(k, q, o, base, x);
    } else {
      InvertAtLeaf(k, q, o - BlockSize(k) / 2, base, x);
    }
  }

  predicate IsChildOf(k: nat, x: nat, p: nat) {
    x == ChildOf(k, p) || x == ChildOf(k, p) + SiblingOffset(k, p)
  }

  lemma ParentInSameBlock(k: nat, x: nat, q: nat, o: nat) returns (p: nat)
    requires k >= 1 && 1 < o < BlockSize(k) && x == q * BlockSize(k) + o
    ensures 0 < p < x && HasParent(k, x, p) && Usable(k, p) && IsChildOf(k, x, p)
  {
    var base := q * BlockSize(k);
    p := base + o / 2;
    SlotAndParent(k, q, o, base);
  }

  lemma ParentInBlockAbove(k: nat, x: nat, q: nat) returns (p: nat)
    requires k >= 1 && q > 0 && x == q * BlockSize(k) + 1
    ensures 0 < p < x && HasParent(k, x, p) && Usable(k, p) && IsChildOf(k, x, p)
  {
    var b := BlockSize(k);
    var g, s := Split(k, q - 1);
    var base := g * b;
    p := base + (b / 2 + s / 2);
    HalfOf(k, s);
    LeafAndRoot(k, g, s, base, q, q * b);
  }

  /** Every usable index but the first is a child of its strictly smaller parent. */
  lemma ChildOfParent(k: nat, x: nat) returns (p: nat)
    requires k >= 1 && Usable(k, x) && x != 1
    ensures 0 < p < x && HasParent(k, x, p) && Usable(k, p) && IsChildOf(k, x, p)
  {
    var q, o := Split(k, x);
    Locate(k, q, q * BlockSize(k), o);
    if o > 1 {
      p := ParentInSameBlock(k, x, q, o);
    } else {
      p := ParentInBlockAbove(k, x, q);
    }
  }

  /** No usable index is the child of two: the parent is the only index with it as a child. */
  lemma OnlyOneParent(k: nat, x: nat, y: nat)
    requires k >= 1 && Usable(k, x) && Usable(k, y) && IsChildOf(k, x, y)
    ensures HasParent(k, x, y)
  {
    ParentInvertsChild(k, y);
  }

  /** The same with the parent named. */
  lemma ParentDefined(k: nat, x: nat)
    requires k >= 1 && Usable(k, x) && x != 1
    ensures IsBlockRoot(k, x) ==> BlockBase(k, x) / BlockSize(k) >= 1
    ensures 0 < ParentOf(k, x) < x && Usable(k, ParentOf(k, x)) && IsChildOf(k, x, ParentOf(k, x))
  {
    var p := ChildOfParent(k, x);
  }
}
