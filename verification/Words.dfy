/**
 The operations of a 64-bit word, and what each of them does to the number a word stands for and to
 that number's binary digits.
 */
module Words {

  import opened Arithmetic

  /** The word operations the code uses. */
  datatype Ops<!W> = Ops(
    add: (W, W) -> W,
    xor: (W, W) -> W,
    or: (W, W) -> W,
    /** Rotation to the left. */
    rotl: (W, nat) -> W,
    /** An octet shifted left by a number of octets. */
    octet: (Octet, nat) -> W,
    /** A number below 2^64 as a word. */
    word: nat -> W)

  /** The number that a word stands for. */
  function Number(x: bv64): (n: nat)
    ensures n < WORD_RANGE
  {
    x as nat
  }

  function Add(x: bv64, y: bv64): bv64 {
    x + y
  }

  function Xor(x: bv64, y: bv64): bv64 {
    x ^ y
  }

  function Or(x: bv64, y: bv64): bv64 {
    x | y
  }

  function ShlBy(x: bv64, s: bv7): bv64 {
    if s < 64 then x << s else 0
  }

  function ShrBy(x: bv64, s: bv7): bv64 {
    if s < 64 then x >> s else 0
  }

  function Shl(x: bv64, b: nat): bv64 {
    if b < 64 then ShlBy(x, b as bv7) else 0
  }

  function Shr(x: bv64, b: nat): bv64 {
    if b < 64 then ShrBy(x, b as bv7) else 0
  }

  function Rotl(x: bv64, b: nat): bv64 {
    if 0 < b < 64 then Or(Shl(x, b), Shr(x, 64 - b)) else x
  }

  function ShiftedOctet(x: Octet, i: nat): bv64 {
    if i < 8 then Shl(x as bv64, 8 * i) else 0
  }

  function FromNat(n: nat): bv64 {
    (n % WORD_RANGE) as bv64
  }

  /** Words of 64 bits. */
  function Machine(): Ops<bv64> {
    Ops(Add, Xor, Or, Rotl, ShiftedOctet, FromNat)
  }

  // ---------- or and exclusive or ----------

  /** The laws of or and exclusive or, and the zero word. */
  ghost predicate WordLaws<W(!new)>(ops: Ops<W>) {
    && Commutes(ops.or) && Associates(ops.or) && Commutes(ops.xor) && Associates(ops.xor)
    && (forall x :: ops.or(x, ops.word(0)) == x)
    && (forall i: nat :: ops.octet(0, i) == ops.word(0))
  }

  ghost predicate Commutes<W(!new)>(f: (W, W) -> W) {
    forall x, y :: f(x, y) == f(y, x)
  }

  ghost predicate Associates<W(!new)>(f: (W, W) -> W) {
    forall x, y, z :: f(f(x, y), z) == f(x, f(y, z))
  }

  lemma OrCommutes()
    ensures Commutes(Or)
  {
  }

  lemma OrRegroups(x: bv64, y: bv64, z: bv64)
    ensures (x | y) | z == x | (y | z)
  {
  }

  lemma OrAssociates()
    ensures Associates(Or)
  {
    forall x: bv64, y: bv64, z: bv64 ensures Or(Or(x, y), z) == Or(x, Or(y, z)) {
      OrRegroups(x, y, z);
    }
  }

  lemma XorCommutes()
    ensures Commutes(Xor)
  {
  }

  lemma XorRegroups(x: bv64, y: bv64, z: bv64)
    ensures (x ^ y) ^ z == x ^ (y ^ z)
  {
  }

  lemma XorAssociatesAt(x: bv64, y: bv64, z: bv64)
    ensures Xor(Xor(x, y), z) == Xor(x, Xor(y, z))
  {
    var a, b := x ^ y, y ^ z;
    assert Xor(x, y) == a && Xor(y, z) == b;
    XorRegroups(x, y, z);
  }

  lemma XorAssociates()
    ensures Associates(Xor)
  {
    forall x: bv64, y: bv64, z: bv64 ensures Xor(Xor(x, y), z) == Xor(x, Xor(y, z)) {
      XorAssociatesAt(x, y, z);
    }
  }

  lemma OrZero(x: bv64)
    ensures Or(x, FromNat(0)) == x
  {
  }

  lemma ZeroShifted(i: nat)
    ensures ShiftedOctet(0, i) == FromNat(0)
  {
  }

  lemma MachineLaws()
    ensures WordLaws(Machine())
  {
    OrCommutes();
    OrAssociates();
    XorCommutes();
    XorAssociates();
    forall x: bv64 ensures Or(x, FromNat(0)) == x {
      OrZero(x);
    }
    forall i: nat ensures ShiftedOctet(0, i) == FromNat(0) {
      ZeroShifted(i);
    }
  }

  // ---------- addition ----------

  ghost predicate AddsModulo<W(!new)>(num: W -> nat, add: (W, W) -> W) {
    forall x, y :: num(add(x, y)) == (num(x) + num(y)) % WORD_RANGE
  }

  lemma WideSum(x: bv64, y: bv64)
    ensures ((x as bv65) + (y as bv65)) as nat == x as nat + y as nat
  {
  }

  lemma Carry(x: bv64, y: bv64) returns (c: bv1)
    ensures (x as bv65) + (y as bv65) == ((c as bv65) << 64) | ((x + y) as bv65)
  {
    c := (((x as bv65) + (y as bv65)) >> 64) as bv1;
  }

  lemma CarryNumber(c: bv1, z: bv64)
    ensures (((c as bv65) << 64) | (z as bv65)) as nat == c as nat * WORD_RANGE + z as nat
  {
  }

  lemma SumAndCarry(x: bv64, y: bv64) returns (c: nat)
    ensures Number(x) + Number(y) == c * WORD_RANGE + Number(Add(x, y))
  {
    var carry := Carry(x, y);
    WideSum(x, y);
    CarryNumber(carry, x + y);
    c := carry as nat;
  }

  /** For any two words there is a number of times the sum wraps around. */
  ghost predicate Wraps<W(!new)>(num: W -> nat, add: (W, W) -> W) {
    forall x, y :: WrapsAt(num, add, x, y) && num(add(x, y)) < WORD_RANGE
  }

  ghost predicate WrapsAt<W>(num: W -> nat, add: (W, W) -> W, x: W, y: W) {
    exists c: nat :: num(x) + num(y) == c * WORD_RANGE + num(add(x, y))
  }

  lemma WrapsModulo<W(!new)>(num: W -> nat, add: (W, W) -> W)
    requires Wraps(num, add)
    ensures AddsModulo(num, add)
  {
    forall x, y ensures num(add(x, y)) == (num(x) + num(y)) % WORD_RANGE {
      assert WrapsAt(num, add, x, y) && num(add(x, y)) < WORD_RANGE;
      var c: nat :| num(x) + num(y) == c * WORD_RANGE + num(add(x, y));
      DivModUnique(num(x) + num(y), WORD_RANGE, c, num(add(x, y)));
    }
  }

  lemma AddWrapsAt(x: bv64, y: bv64)
    ensures WrapsAt(Number, Add, x, y)
  {
    var c := SumAndCarry(x, y);
  }

  lemma AddWraps()
    ensures Wraps(Number, Add)
  {
    forall x: bv64, y: bv64 ensures WrapsAt(Number, Add, x, y) {
      AddWrapsAt(x, y);
    }
  }

  lemma AddIsModular()
    ensures AddsModulo(Number, Add)
  {
    AddWraps();
    WrapsModulo(Number, Add);
  }

  // ---------- shifts by one ----------

  lemma AppendDigit(high: bv63, low: bv1)
    ensures (((high as bv64) << 1) | (low as bv64)) as nat == 2 * high as nat + low as nat
    ensures (high as bv64) as nat == high as nat && (low as bv64) as nat == low as nat
  {
  }

  lemma LowDigit(x: bv64) returns (high: bv63, low: bv1)
    ensures x == ((high as bv64) << 1) | (low as bv64) && x >> 1 == high as bv64 && x & 1 == low as bv64
  {
    high, low := (x >> 1) as bv63, (x & 1) as bv1;
  }

  lemma HalfNumber(x: bv64)
    ensures (x >> 1) as nat == x as nat / 2 && (x & 1) as nat == x as nat % 2
  {
    var high, low := LowDigit(x);
    AppendDigit(high, low);
    DivModUnique(x as nat, 2, high as nat, low as nat);
  }

  lemma PrependDigit(high: bv1, low: bv63)
    ensures (((high as bv64) << 63) | (low as bv64)) as nat == high as nat * 0x8000_0000_0000_0000 + low as nat
    ensures ((low as bv64) << 1) as nat == 2 * low as nat
  {
  }

  lemma HighDigit(x: bv64) returns (high: bv1, low: bv63)
    ensures x == ((high as bv64) << 63) | (low as bv64) && x << 1 == (low as bv64) << 1
  {
    high, low := (x >> 63) as bv1, (x & 0x7fff_ffff_ffff_ffff) as bv63;
  }

  lemma DoubleNumber(x: bv64)
    ensures (x << 1) as nat == 2 * x as nat % WORD_RANGE
  {
    var high, low := HighDigit(x);
    PrependDigit(high, low);
    DivModUnique(2 * x as nat, WORD_RANGE, high as nat, 2 * low as nat);
  }

  // ---------- shifts by any number of bits ----------

  lemma OddStep(x: bv64, s: bv7)
    requires s < 63 && s & 1 == 1
    ensures ShlBy(x, s + 1) == Twice(ShlBy(x, s))
  {
  }

  lemma EvenStep(x: bv64, s: bv7)
    requires s < 63 && s & 1 == 0
    ensures ShlBy(x, s + 1) == Twice(ShlBy(x, s))
  {
  }

  lemma OddStepBack(x: bv64, s: bv7)
    requires s < 63 && s & 1 == 1
    ensures ShrBy(x, s + 1) == Half(ShrBy(x, s))
  {
  }

  lemma EvenStepBack(x: bv64, s: bv7)
    requires s < 63 && s & 1 == 0
    ensures ShrBy(x, s + 1) == Half(ShrBy(x, s))
  {
  }

  // ---------- shifts by any number of bits, in any domain ----------

  /** `shift` by zero does nothing and by one more does `once` more. */
  ghost predicate Repeats<W(!new)>(shift: (W, nat) -> W, once: W -> W) {
    && (forall x :: shift(x, 0) == x)
    && (forall x, n :: 0 <= n < 63 ==> OneMore(shift, once, x, n))
  }

  predicate OneMore<W(==)>(shift: (W, nat) -> W, once: W -> W, x: W, n: nat) {
    shift(x, n + 1) == once(shift(x, n))
  }

  ghost predicate Doubles<W(!new)>(num: W -> nat, once: W -> W) {
    forall x :: num(once(x)) == 2 * num(x) % WORD_RANGE && num(x) < WORD_RANGE
  }

  ghost predicate Halves<W(!new)>(num: W -> nat, once: W -> W) {
    forall x :: num(once(x)) == num(x) / 2
  }

  lemma DoubledResidue(a: nat, p: nat, y: nat)
    requires y == a * p % WORD_RANGE
    ensures 2 * y % WORD_RANGE == a * (2 * p) % WORD_RANGE
  {
    var q, r := SplitBy(a * p, WORD_RANGE);
    var u, v := SplitBy(2 * y, WORD_RANGE);
    Doubling(a, p);
    DivModUnique(a * (2 * p), WORD_RANGE, 2 * q + u, v);
  }

  lemma HalvedQuotient(a: nat, p: nat)
    requires p > 0
    ensures a / p / 2 == a / (2 * p)
  {
    var q, r := SplitBy(a, p);
    var u, v := SplitBy(q, 2);
    assert a == u * (2 * p) + (v * p + r);
    DivModUnique(a, 2 * p, u, v * p + r);
  }

  lemma {:induction false} RepeatedDoubling<W(!new)>(num: W -> nat, shift: (W, nat) -> W, once: W -> W, x: W, n: nat)
    requires Repeats(shift, once) && Doubles(num, once) && n < 64
    ensures num(shift(x, n)) == num(x) * Pow2(n) % WORD_RANGE
  {
    if n > 0 {
      RepeatedDoubling(num, shift, once, x, n - 1);
      assert OneMore(shift, once, x, n - 1);
      DoubledResidue(num(x), Pow2(n - 1), num(shift(x, n - 1)));
    } else {
      assert num(x) < WORD_RANGE by { assert num(once(x)) == 2 * num(x) % WORD_RANGE; }
    }
  }

  lemma {:induction false} RepeatedHalving<W(!new)>(num: W -> nat, shift: (W, nat) -> W, once: W -> W, x: W, n: nat)
    requires Repeats(shift, once) && Halves(num, once) && n < 64
    ensures num(shift(x, n)) == num(x) / Pow2(n)
  {
    if n > 0 {
      RepeatedHalving(num, shift, once, x, n - 1);
      assert OneMore(shift, once, x, n - 1);
      HalvedQuotient(num(x), Pow2(n - 1));
    }
  }

  // ---------- shift amounts ----------

  lemma AmountStep(s: bv7)
    requires s < 127
    ensures (s + 1) as nat == s as nat + 1
  {
  }

  lemma AmountBack(s: bv7)
    ensures (s as nat) as bv7 == s
  {
  }

  lemma {:induction false} Amount(n: nat) returns (s: bv7)
    requires n < 128
    ensures s as nat == n && n as bv7 == s
  {
    if n == 0 {
      s := 0;
    } else {
      var t := Amount(n - 1);
      AmountStep(t);
      s := t + 1;
      AmountBack(s);
    }
  }

  // ---------- the shifts of a word ----------

  function Twice(x: bv64): bv64 {
    x << 1
  }

  function Half(x: bv64): bv64 {
    x >> 1
  }

  lemma NextAmount(n: nat) returns (s: bv7)
    requires n < 63
    ensures n as bv7 == s && (n + 1) as bv7 == s + 1 && s < 63
  {
    s := Amount(n);
    AmountStep(s);
    AmountBack(s + 1);
    AmountBound(s);
  }

  lemma AmountBound(s: bv7)
    requires s as nat < 64
    ensures s < 64 && (s as nat < 63 ==> s < 63)
  {
  }

  lemma ShlStep(x: bv64, n: nat)
    requires n < 63
    ensures OneMore(Shl, Twice, x, n)
  {
    var s := NextAmount(n);
    if s & 1 == 1 {
      OddStep(x, s);
    } else {
      EvenStep(x, s);
    }
  }

  lemma ShrStep(x: bv64, n: nat)
    requires n < 63
    ensures OneMore(Shr, Half, x, n)
  {
    var s := NextAmount(n);
    if s & 1 == 1 {
      OddStepBack(x, s);
    } else {
      EvenStepBack(x, s);
    }
  }

  lemma ShiftByNone(x: bv64)
    ensures Shl(x, 0) == x && Shr(x, 0) == x
  {
  }

  lemma ShiftsRepeat()
    ensures Repeats(Shl, Twice) && Repeats(Shr, Half)
  {
    forall x ensures Shl(x, 0) == x && Shr(x, 0) == x {
      ShiftByNone(x);
    }
    forall x, n: nat | n < 63 ensures OneMore(Shl, Twice, x, n) && OneMore(Shr, Half, x, n) {
      ShlStep(x, n);
      ShrStep(x, n);
    }
  }

  lemma TwiceNumber(x: bv64)
    ensures Number(Twice(x)) == 2 * Number(x) % WORD_RANGE && Number(x) < WORD_RANGE
  {
    DoubleNumber(x);
  }

  lemma HalfIsHalf(x: bv64)
    ensures Number(Half(x)) == Number(x) / 2
  {
    HalfNumber(x);
  }

  lemma TwiceDoubles()
    ensures Doubles(Number, Twice)
  {
    forall x ensures Number(Twice(x)) == 2 * Number(x) % WORD_RANGE && Number(x) < WORD_RANGE {
      TwiceNumber(x);
    }
  }

  lemma HalfHalves()
    ensures Halves(Number, Half)
  {
    forall x ensures Number(Half(x)) == Number(x) / 2 {
      HalfIsHalf(x);
    }
  }

  // ---------- rotation ----------

  lemma PartsAddUp(x: bv64, s: bv7)
    requires 0 < s < 64
    ensures Or(ShlBy(x, s), ShrBy(x, 64 - s)) == ShlBy(x, s) + ShrBy(x, 64 - s)
  {
  }

  lemma AddIsPlus(x: bv64, y: bv64)
    ensures Add(x, y) == x + y
  {
  }

  lemma Rest(b: nat) returns (s: bv7)
    requires 0 < b < 64
    ensures b as bv7 == s && (64 - b) as bv7 == 64 - s && 0 < s < 64
  {
    s := Amount(b);
    RestNumber(s);
    AmountBack(64 - s);
  }

  lemma RestNumber(s: bv7)
    requires 0 < s as nat < 64
    ensures (64 - s) as nat == 64 - s as nat && 0 < s < 64
  {
  }

  lemma RotlIsSum(x: bv64, b: nat)
    requires 0 < b < 64
    ensures Rotl(x, b) == Add(Shl(x, b), Shr(x, 64 - b))
  {
    var s := Rest(b);
    PartsAddUp(x, s);
    AddIsPlus(Shl(x, b), Shr(x, 64 - b));
  }

  /** Rotation as a sum of what moves up and what comes back at the bottom. */
  ghost predicate RotatesBySum<W(!new)>(num: W -> nat, rotl: (W, nat) -> W) {
    forall x, b: nat :: 0 < b < 64 ==> num(rotl(x, b)) == num(x) * Pow2(b) % WORD_RANGE + num(x) / Pow2(64 - b)
  }

  ghost predicate SplitsIntoShifts<W(!new)>(rotl: (W, nat) -> W, add: (W, W) -> W, shl: (W, nat) -> W, shr: (W, nat) -> W) {
    forall x, b: nat :: 0 < b < 64 ==> rotl(x, b) == add(shl(x, b), shr(x, 64 - b))
  }

  lemma RotlSplits()
    ensures SplitsIntoShifts(Rotl, Add, Shl, Shr)
  {
    forall x, b: nat | 0 < b < 64 ensures Rotl(x, b) == Add(Shl(x, b), Shr(x, 64 - b)) {
      RotlIsSum(x, b);
    }
  }

  /** What moves up leaves room for what comes back. */
  lemma PartsFit(a: nat, p: nat, q: nat)
    requires p > 0 && q > 0 && p * q == WORD_RANGE && a < WORD_RANGE
    ensures a * p % WORD_RANGE + a / q < WORD_RANGE
  {
    var u, r := SplitBy(a, q);
    if u >= p {
      MulMonotone(p, u, q);
    }
    assert a * p == u * (p * q) + r * p;
    MulMonotone(r + 1, q, p);
    assert (r + 1) * p == r * p + p && q * p == p * q && 0 <= r * p;
    DivModUnique(a * p, WORD_RANGE, u, r * p);
  }

  lemma RotationNumber<W(!new)>(num: W -> nat, rotl: (W, nat) -> W, add: (W, W) -> W,
                                shl: (W, nat) -> W, twice: W -> W, shr: (W, nat) -> W, half: W -> W)
    requires AddsModulo(num, add) && SplitsIntoShifts(rotl, add, shl, shr)
    requires Repeats(shl, twice) && Doubles(num, twice) && Repeats(shr, half) && Halves(num, half)
    ensures RotatesBySum(num, rotl)
  {
    forall x, b: nat | 0 < b < 64
      ensures num(rotl(x, b)) == num(x) * Pow2(b) % WORD_RANGE + num(x) / Pow2(64 - b)
    {
      RepeatedDoubling(num, shl, twice, x, b);
      RepeatedHalving(num, shr, half, x, 64 - b);
      Pow2Sum(b, 64 - b);
      WordIsPower();
      assert num(x) < WORD_RANGE by { assert num(twice(x)) == 2 * num(x) % WORD_RANGE; }
      PartsFit(num(x), Pow2(b), Pow2(64 - b));
    }
  }

  lemma RotlNumber()
    ensures RotatesBySum(Number, Rotl)
  {
    AddIsModular();
    RotlSplits();
    ShiftsRepeat();
    TwiceDoubles();
    HalfHalves();
    RotationNumber(Number, Rotl, Add, Shl, Twice, Shr, Half);
  }

  // ---------- words from numbers ----------

  /** Every number in range is that of a word, made of its binary digits. */
  lemma {:induction false} WordOfNumber<W(!new)>(num: W -> nat, add: (W, W) -> W, twice: W -> W, zero: W, one: W, n: nat)
    returns (w: W)
    requires AddsModulo(num, add) && Doubles(num, twice) && num(zero) == 0 && num(one) == 1 && n < WORD_RANGE
    ensures num(w) == n
  {
    if n == 0 {
      w := zero;
    } else {
      var v := WordOfNumber(num, add, twice, zero, one, n / 2);
      w := twice(v);
      assert num(w) == 2 * (n / 2);
      if n % 2 == 1 {
        w := add(w, one);
      }
    }
  }

  ghost predicate ReadsBack<W(!new)>(num: W -> nat, word: nat -> W) {
    && (forall w :: word(num(w)) == w)
    && (forall n :: 0 <= n ==> word(n) == word(n % WORD_RANGE))
  }

  ghost predicate WordsByNumber<W(!new)>(num: W -> nat, word: nat -> W) {
    forall n :: 0 <= n ==> num(word(n)) == n % WORD_RANGE
  }

  lemma WordHasItsNumber<W(!new)>(num: W -> nat, word: nat -> W, add: (W, W) -> W, twice: W -> W, zero: W, one: W)
    requires AddsModulo(num, add) && Doubles(num, twice) && num(zero) == 0 && num(one) == 1 && ReadsBack(num, word)
    ensures WordsByNumber(num, word)
  {
    forall n: nat ensures num(word(n)) == n % WORD_RANGE {
      var w := WordOfNumber(num, add, twice, zero, one, n % WORD_RANGE);
      assert word(num(w)) == w;
    }
  }

  lemma BackAndForth(x: bv64)
    ensures (x as nat) as bv64 == x
  {
  }

  lemma InRange(n: nat)
    requires n < WORD_RANGE
    ensures FromNat(n) == n as bv64
  {
  }

  lemma NumberReadsBack(x: bv64)
    ensures FromNat(Number(x)) == x
  {
    BackAndForth(x);
    InRange(Number(x));
  }

  lemma SmallNumbers()
    ensures Number(0) == 0 && Number(1) == 1
  {
  }

  lemma OnlyResidue(n: nat)
    ensures FromNat(n) == FromNat(n % WORD_RANGE)
  {
  }

  lemma FromNatNumber()
    ensures WordsByNumber(Number, FromNat)
  {
    AddIsModular();
    TwiceDoubles();
    SmallNumbers();
    forall x ensures FromNat(Number(x)) == x {
      NumberReadsBack(x);
    }
    forall n: nat ensures FromNat(n) == FromNat(n % WORD_RANGE) {
      OnlyResidue(n);
    }
    WordHasItsNumber(Number, FromNat, Add, Twice, 0, 1);
  }

  ghost predicate OctetsByNumber<W(!new)>(num: W -> nat, octet: (Octet, nat) -> W) {
    forall x: Octet, i: nat :: i < 8 ==> num(octet(x, i)) == x * Pow2(8 * i)
  }

  ghost predicate PlacedByShift<W(!new)>(octet: (Octet, nat) -> W, word: nat -> W, shl: (W, nat) -> W) {
    forall x: Octet, i: nat :: i < 8 ==> octet(x, i) == shl(word(x), 8 * i)
  }

  lemma OctetFits(x: Octet, i: nat)
    requires i < 8
    ensures x * Pow2(8 * i) < WORD_RANGE
  {
    WordIsPower();
    Pow2Monotone(8 * i, 56);
    Pow2Sum(8, 56);
    assert Pow2(8) == 256;
    MulMonotone(x + 1, 256, Pow2(8 * i));
  }

  lemma PlacedOctetNumber<W(!new)>(num: W -> nat, word: nat -> W, shl: (W, nat) -> W, twice: W -> W, x: Octet, i: nat)
    requires WordsByNumber(num, word) && Repeats(shl, twice) && Doubles(num, twice) && i < 8
    ensures num(shl(word(x), 8 * i)) == x * Pow2(8 * i)
  {
    assert num(word(x)) == x % WORD_RANGE == x;
    RepeatedDoubling(num, shl, twice, word(x), 8 * i);
    OctetFits(x, i);
  }

  lemma OctetNumber<W(!new)>(num: W -> nat, octet: (Octet, nat) -> W, word: nat -> W, shl: (W, nat) -> W, twice: W -> W)
    requires WordsByNumber(num, word) && PlacedByShift(octet, word, shl) && Repeats(shl, twice) && Doubles(num, twice)
    ensures OctetsByNumber(num, octet)
  {
    forall x: Octet, i: nat | i < 8 ensures num(octet(x, i)) == x * Pow2(8 * i) {
      PlacedOctetNumber(num, word, shl, twice, x, i);
    }
  }

  lemma OctetIsPlaced(x: Octet, i: nat)
    requires i < 8
    ensures ShiftedOctet(x, i) == Shl(FromNat(x), 8 * i)
  {
  }

  lemma ShiftedOctetNumber()
    ensures OctetsByNumber(Number, ShiftedOctet)
  {
    FromNatNumber();
    ShiftsRepeat();
    TwiceDoubles();
    forall x: Octet, i: nat | i < 8 ensures ShiftedOctet(x, i) == Shl(FromNat(x), 8 * i) {
      OctetIsPlaced(x, i);
    }
    OctetNumber(Number, ShiftedOctet, FromNat, Shl, Twice);
  }

  // ---------- binary digits ----------

  /** Binary digit `i`. */
  function Digit(n: nat, i: nat): nat {
    n / Pow2(i) % 2
  }

  ghost predicate OrsDigits<W(!new)>(num: W -> nat, or: (W, W) -> W) {
    forall x, y, i: nat :: i < 64 ==>
      (Digit(num(or(x, y)), i) == 1 <==> Digit(num(x), i) == 1 || Digit(num(y), i) == 1)
  }

  ghost predicate XorsDigits<W(!new)>(num: W -> nat, xor: (W, W) -> W) {
    forall x, y, i: nat :: i < 64 ==>
      (Digit(num(xor(x, y)), i) == 1 <==> Digit(num(x), i) != Digit(num(y), i))
  }

  predicate Odd(x: bv64) {
    x & 1 == 1
  }

  lemma OddDigit(x: bv64, y: bv64, s: bv7)
    requires s < 64
    ensures Odd(ShrBy(x | y, s)) <==> Odd(ShrBy(x, s)) || Odd(ShrBy(y, s))
    ensures Odd(ShrBy(x ^ y, s)) <==> Odd(ShrBy(x, s)) != Odd(ShrBy(y, s))
  {
  }

  lemma OddNumber(x: bv64)
    ensures Odd(x) <==> Number(x) % 2 == 1
  {
    HalfNumber(x);
  }

  ghost predicate TestsLowDigit<W(!new)>(num: W -> nat, odd: W -> bool) {
    forall x :: odd(x) <==> num(x) % 2 == 1
  }

  /** Or and exclusive or act on the digit that a right shift brings to the bottom. */
  ghost predicate OrsPlaces<W(!new)>(or: (W, W) -> W, shr: (W, nat) -> W, odd: W -> bool) {
    forall x, y, i: nat :: i < 64 ==> (odd(shr(or(x, y), i)) <==> odd(shr(x, i)) || odd(shr(y, i)))
  }

  ghost predicate XorsPlaces<W(!new)>(xor: (W, W) -> W, shr: (W, nat) -> W, odd: W -> bool) {
    forall x, y, i: nat :: i < 64 ==> (odd(shr(xor(x, y), i)) <==> odd(shr(x, i)) != odd(shr(y, i)))
  }

  lemma DigitIsOdd<W(!new)>(num: W -> nat, shr: (W, nat) -> W, half: W -> W, odd: W -> bool, x: W, i: nat)
    requires Repeats(shr, half) && Halves(num, half) && TestsLowDigit(num, odd) && i < 64
    ensures Digit(num(x), i) == if odd(shr(x, i)) then 1 else 0
  {
    RepeatedHalving(num, shr, half, x, i);
    assert odd(shr(x, i)) <==> num(shr(x, i)) % 2 == 1;
  }

  lemma DigitsOfOr<W(!new)>(num: W -> nat, or: (W, W) -> W, shr: (W, nat) -> W, half: W -> W, odd: W -> bool)
    requires Repeats(shr, half) && Halves(num, half) && TestsLowDigit(num, odd) && OrsPlaces(or, shr, odd)
    ensures OrsDigits(num, or)
  {
    forall x, y, i: nat | i < 64
      ensures Digit(num(or(x, y)), i) == 1 <==> Digit(num(x), i) == 1 || Digit(num(y), i) == 1
    {
      DigitIsOdd(num, shr, half, odd, or(x, y), i);
      DigitIsOdd(num, shr, half, odd, x, i);
      DigitIsOdd(num, shr, half, odd, y, i);
    }
  }

  lemma DigitsOfXor<W(!new)>(num: W -> nat, xor: (W, W) -> W, shr: (W, nat) -> W, half: W -> W, odd: W -> bool)
    requires Repeats(shr, half) && Halves(num, half) && TestsLowDigit(num, odd) && XorsPlaces(xor, shr, odd)
    ensures XorsDigits(num, xor)
  {
    forall x, y, i: nat | i < 64
      ensures Digit(num(xor(x, y)), i) == 1 <==> Digit(num(x), i) != Digit(num(y), i)
    {
      DigitIsOdd(num, shr, half, odd, xor(x, y), i);
      DigitIsOdd(num, shr, half, odd, x, i);
      DigitIsOdd(num, shr, half, odd, y, i);
    }
  }

  lemma SmallAmount(n: nat) returns (s: bv7)
    requires n < 64
    ensures n as bv7 == s && s < 64
  {
    s := Amount(n);
    AmountBound(s);
  }

  lemma PlaceOf(x: bv64, y: bv64, i: nat)
    requires i < 64
    ensures Odd(Shr(Or(x, y), i)) <==> Odd(Shr(x, i)) || Odd(Shr(y, i))
    ensures Odd(Shr(Xor(x, y), i)) <==> Odd(Shr(x, i)) != Odd(Shr(y, i))
  {
    var s := SmallAmount(i);
    OddDigit(x, y, s);
  }

  lemma DigitNumbers()
    ensures OrsDigits(Number, Or) && XorsDigits(Number, Xor)
  {
    ShiftsRepeat();
    HalfHalves();
    forall x ensures Odd(x) <==> Number(x) % 2 == 1 {
      OddNumber(x);
    }
    forall x, y, i: nat | i < 64
      ensures Odd(Shr(Or(x, y), i)) <==> Odd(Shr(x, i)) || Odd(Shr(y, i))
      ensures Odd(Shr(Xor(x, y), i)) <==> Odd(Shr(x, i)) != Odd(Shr(y, i))
    {
      PlaceOf(x, y, i);
    }
    DigitsOfOr(Number, Or, Shr, Half, Odd);
    DigitsOfXor(Number, Xor, Shr, Half, Odd);
  }

  // ---------- all of them ----------

  /** What the operations do to the numbers of their operands. */
  ghost predicate NumberLaws<W(!new)>(ops: Ops<W>, num: W -> nat) {
    && AddsModulo(num, ops.add) && RotatesBySum(num, ops.rotl)
    && OctetsByNumber(num, ops.octet) && WordsByNumber(num, ops.word)
    && OrsDigits(num, ops.or) && XorsDigits(num, ops.xor)
  }

  /** Addition and rotation of machine words, loads and constants by number, or and exclusive or by binary digit. */
  lemma MachineNumbers()
    ensures NumberLaws(Machine(), Number)
  {
    AddIsModular();
    RotlNumber();
    ShiftedOctetNumber();
    FromNatNumber();
    DigitNumbers();
  }
}
